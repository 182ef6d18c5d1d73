/** The formatting pass applied to every reply of the language model
    (`process_gemini_response`): a line-leading "* " marker, after any leading
    whitespace, becomes a bullet "• " with the whitespace kept, and then every
    remaining '*' is deleted.

    The regular expression works on the whole text in multiline mode; the
    model works line by line on the text split at '\n'. A match of the
    leading `\s*` may run across blank lines, but the lines it runs over hold
    only whitespace and are left as they are, so the two readings agree. */
module ResponseFormat {
  /** Python's `\s` on str patterns: the characters for which `str.isspace()` holds. */
  predicate IsSpace(c: char)
  {
    ('\t' <= c <= '\r') || ('\U{1C}' <= c <= '\U{1F}') || c == ' '
    || c == '\U{85}' || c == '\U{A0}' || c == '\U{1680}'
    || ('\U{2000}' <= c <= '\U{200A}') || c == '\U{2028}' || c == '\U{2029}'
    || c == '\U{202F}' || c == '\U{205F}' || c == '\U{3000}'
  }

  /** Every character of `w` is whitespace. */
  predicate AllSpace(w: string)
  {
    forall j :: 0 <= j < |w| ==> IsSpace(w[j])
  }

  // ---------------------------------------------------------------- lines

  /** The text split at every '\n' (Python's `s.split('\n')`). */
  function Lines(s: string): (ls: seq<string>)
    ensures |ls| >= 1
    ensures forall i :: 0 <= i < |ls| ==> '\n' !in ls[i]
  {
    if s == [] then [[]]
    else if s[0] == '\n' then [[]] + Lines(s[1..])
    else
      var rest := Lines(s[1..]);
      [[s[0]] + rest[0]] + rest[1..]
  }

  /** The lines joined with '\n' (Python's `'\n'.join(ls)`). */
  function Unlines(ls: seq<string>): string
  {
    if ls == [] then []
    else if |ls| == 1 then ls[0]
    else ls[0] + "\n" + Unlines(ls[1..])
  }

  /** Joining the lines of a text gives the text back. */
  lemma {:induction false} UnlinesLines(s: string)
    ensures Unlines(Lines(s)) == s
  {
    if s != [] {
      UnlinesLines(s[1..]);
      if s[0] != '\n' {
        var rest := Lines(s[1..]);
        if |rest| > 1 {
          assert ([[s[0]] + rest[0]] + rest[1..])[1..] == rest[1..];
        }
      }
    }
  }

  /** Every character of a line is a character of the text. */
  lemma {:induction false} LinesChars(s: string, i: nat, c: char)
    requires i < |Lines(s)| && c in Lines(s)[i]
    ensures c in s
  {
    if s != [] {
      var rest := Lines(s[1..]);
      if s[0] == '\n' {
        LinesChars(s[1..], i - 1, c);
      } else if i == 0 {
        if c != s[0] {
          LinesChars(s[1..], 0, c);
        }
      } else {
        LinesChars(s[1..], i, c);
      }
    }
  }

  /** A text that starts with a line `l` splits into `l` joined to the first
      line of the rest, then the other lines of the rest. */
  lemma {:induction false} LinesOfPrefix(l: string, t: string)
    requires '\n' !in l
    ensures Lines(l + t) == [l + Lines(t)[0]] + Lines(t)[1..]
  {
    if l == [] {
      assert l + t == t && l + Lines(t)[0] == Lines(t)[0];
      assert Lines(t) == [Lines(t)[0]] + Lines(t)[1..];
    } else {
      assert (l + t)[0] == l[0] && (l + t)[1..] == l[1..] + t;
      LinesOfPrefix(l[1..], t);
      assert [l[0]] + (l[1..] + Lines(t)[0]) == l + Lines(t)[0];
    }
  }

  /** Splitting lines that hold no '\n' after joining them gives the lines back. */
  lemma {:induction false} LinesUnlines(ls: seq<string>)
    requires |ls| >= 1
    requires forall i :: 0 <= i < |ls| ==> '\n' !in ls[i]
    ensures Lines(Unlines(ls)) == ls
  {
    if |ls| == 1 {
      LinesOfPrefix(ls[0], []);
      assert ls[0] + [] == ls[0];
    } else {
      var u := Unlines(ls[1..]);
      LinesUnlines(ls[1..]);
      LinesOfPrefix(ls[0], "\n" + u);
      assert ls[0] + "\n" + u == ls[0] + ("\n" + u);
      assert ("\n" + u)[0] == '\n' && ("\n" + u)[1..] == u;
      assert Lines("\n" + u) == [[]] + ls[1..];
      assert ls[0] + [] == ls[0];
      assert ls == [ls[0]] + ls[1..];
    }
  }

  /** Joining lines of the same lengths gives texts of the same length. */
  lemma {:induction false} UnlinesLength(ls: seq<string>, ms: seq<string>)
    requires |ls| == |ms|
    requires forall i :: 0 <= i < |ls| ==> |ls[i]| == |ms[i]|
    ensures |Unlines(ls)| == |Unlines(ms)|
  {
    if |ls| > 1 {
      UnlinesLength(ls[1..], ms[1..]);
    }
  }

  // ---------------------------------------------------------------- asterisks

  /** `s.replace('*', '')`. */
  function StripStars(s: string): (r: string)
    ensures '*' !in r
    ensures |r| <= |s|
  {
    if s == [] then []
    else
      (if s[0] == '*' then [] else [s[0]]) + StripStars(s[1..])
  }

  /** Deleting asterisks keeps every other character and adds none. */
  lemma {:induction false} StripStarsChars(s: string, c: char)
    ensures c in StripStars(s) <==> c in s && c != '*'
  {
    if s != [] {
      StripStarsChars(s[1..], c);
      assert s == [s[0]] + s[1..];
    }
  }

  /** A text without asterisks loses nothing. */
  lemma {:induction false} StripStarsFree(s: string)
    requires '*' !in s
    ensures StripStars(s) == s
  {
    if s != [] {
      assert s[0] != '*';
      StripStarsFree(s[1..]);
      assert s == [s[0]] + s[1..];
    }
  }

  /** Deleting asterisks works piecewise, so what is left keeps its order. */
  lemma {:induction false} StripStarsAppend(a: string, b: string)
    ensures StripStars(a + b) == StripStars(a) + StripStars(b)
  {
    if a == [] {
      assert a + b == b;
    } else {
      var h := if a[0] == '*' then [] else [a[0]];
      assert (a + b)[0] == a[0] && (a + b)[1..] == a[1..] + b;
      StripStarsAppend(a[1..], b);
      calc {
        StripStars(a + b);
        h + StripStars(a[1..] + b);
        h + (StripStars(a[1..]) + StripStars(b));
        (h + StripStars(a[1..])) + StripStars(b);
        StripStars(a) + StripStars(b);
      }
    }
  }

  /** Every line without its asterisks. */
  function StripLines(ls: seq<string>): (ms: seq<string>)
    ensures |ms| == |ls|
    ensures forall i :: 0 <= i < |ls| ==> ms[i] == StripStars(ls[i])
  {
    if ls == [] then [] else [StripStars(ls[0])] + StripLines(ls[1..])
  }

  /** Deleting asterisks from joined lines is deleting them line by line. */
  lemma {:induction false} StripStarsUnlines(ls: seq<string>)
    ensures StripStars(Unlines(ls)) == Unlines(StripLines(ls))
  {
    if |ls| > 1 {
      StripStarsAppend(ls[0] + "\n", Unlines(ls[1..]));
      StripStarsAppend(ls[0], "\n");
      StripStarsUnlines(ls[1..]);
    }
  }

  // ---------------------------------------------------------------- bullets

  /** The length of the run of whitespace that starts the line. */
  function LeadLen(l: string): (k: nat)
    ensures k <= |l|
    ensures AllSpace(l[..k])
    ensures k < |l| ==> !IsSpace(l[k])
  {
    if l != [] && IsSpace(l[0]) then
      var k := 1 + LeadLen(l[1..]);
      assert l[..k] == [l[0]] + l[1..][..k - 1];
      k
    else 0
  }

  /** The line is leading whitespace followed by "* ", read with the greedy
      whitespace run. */
  predicate IsBulletLine(l: string)
  {
    var k := LeadLen(l);
    k + 2 <= |l| && l[k] == '*' && l[k + 1] == ' '
  }

  /** `^(\s*)\* ` matches at the start of the line with the whitespace group
      `l[..k]`. */
  predicate MatchesAt(l: string, k: nat)
  {
    k + 2 <= |l| && AllSpace(l[..k]) && l[k] == '*' && l[k + 1] == ' '
  }

  /** The greedy reading agrees with the pattern: the line is a bullet line
      exactly when the pattern matches, and then its group is the whole
      leading whitespace. */
  lemma BulletLineMatches(l: string)
    ensures IsBulletLine(l) <==> exists k: nat :: MatchesAt(l, k)
    ensures forall k: nat :: MatchesAt(l, k) ==> k == LeadLen(l)
  {
    forall k: nat | MatchesAt(l, k) ensures k == LeadLen(l) {
      var n := LeadLen(l);
    }
    if IsBulletLine(l) {
      assert MatchesAt(l, LeadLen(l));
    }
  }

  /** The regular-expression substitution on one line. */
  function BulletLine(l: string): (r: string)
    ensures |r| == |l|
  {
    if IsBulletLine(l) then
      var k := LeadLen(l);
      l[..k] + "• " + l[k + 2..]
    else l
  }

  /** The substitution on every line. */
  function BulletLines(ls: seq<string>): (ms: seq<string>)
    ensures |ms| == |ls|
    ensures forall i :: 0 <= i < |ls| ==> ms[i] == BulletLine(ls[i])
  {
    if ls == [] then [] else [BulletLine(ls[0])] + BulletLines(ls[1..])
  }

  /** `re.sub(r'^(\s*)\* ', r'\1• ', text, flags=re.MULTILINE)`. */
  function Bulletize(s: string): (r: string)
    ensures |r| == |s|
  {
    UnlinesLength(BulletLines(Lines(s)), Lines(s));
    UnlinesLines(s);
    Unlines(BulletLines(Lines(s)))
  }

  /** `process_gemini_response`: the formatted reply has no asterisk left and
      is never longer than the raw reply. */
  function Process(s: string): (r: string)
    ensures '*' !in r
    ensures |r| <= |s|
  {
    StripStars(Bulletize(s))
  }

  // ---------------------------------------------------------------- per line

  /** The leading whitespace of a line holds no asterisk. */
  lemma LeadHasNoStar(l: string)
    ensures '*' !in l[..LeadLen(l)]
  {
  }

  /** What becomes of one line: a bullet line keeps its leading whitespace,
      gets "• " and loses the asterisks of its rest; any other line only loses
      its asterisks. */
  function FormatLine(l: string): (r: string)
    ensures '*' !in r
    ensures '\n' !in l ==> '\n' !in r
  {
    if IsBulletLine(l) then
      var k := LeadLen(l);
      LeadHasNoStar(l);
      StripStarsChars(l[k + 2..], '\n');
      assert '\n' in l[..k] ==> '\n' in l;
      assert '\n' in l[k + 2..] ==> '\n' in l;
      l[..k] + "• " + StripStars(l[k + 2..])
    else
      StripStarsChars(l, '\n');
      StripStars(l)
  }

  /** Every line formatted. */
  function FormatLines(ls: seq<string>): (ms: seq<string>)
    ensures |ms| == |ls|
    ensures forall i :: 0 <= i < |ls| ==> ms[i] == FormatLine(ls[i])
  {
    if ls == [] then [] else [FormatLine(ls[0])] + FormatLines(ls[1..])
  }

  /** Bulleting a line and then deleting its asterisks is `FormatLine`. */
  lemma FormatBulletLine(l: string)
    ensures StripStars(BulletLine(l)) == FormatLine(l)
  {
    if IsBulletLine(l) {
      var k := LeadLen(l);
      LeadHasNoStar(l);
      StripStarsAppend(l[..k] + "• ", l[k + 2..]);
      StripStarsAppend(l[..k], "• ");
      StripStarsFree(l[..k]);
      StripStarsFree("• ");
    }
  }

  /** The formatter works line by line: the formatted text has as many lines
      as the reply, and each of its lines is the reply's line formatted. */
  lemma ProcessByLines(s: string)
    ensures Process(s) == Unlines(FormatLines(Lines(s)))
    ensures Lines(Process(s)) == FormatLines(Lines(s))
  {
    var ls := Lines(s);
    StripStarsUnlines(BulletLines(ls));
    forall i | 0 <= i < |ls| ensures StripLines(BulletLines(ls))[i] == FormatLines(ls)[i] {
      FormatBulletLine(ls[i]);
    }
    assert StripLines(BulletLines(ls)) == FormatLines(ls);
    LinesUnlines(FormatLines(ls));
  }

  /** A bullet line of the reply becomes, at the same line number, its own
      leading whitespace, then "• ", then its rest without asterisks. */
  lemma BulletKeepsIndent(s: string, i: nat)
    requires i < |Lines(s)| && IsBulletLine(Lines(s)[i])
    ensures var l, out := Lines(s)[i], Lines(Process(s));
            var k := LeadLen(l);
            |out| == |Lines(s)| && out[i] == l[..k] + "• " + StripStars(l[k + 2..])
  {
    ProcessByLines(s);
  }

  /** Any other line of the reply only loses its asterisks. */
  lemma PlainLineStripped(s: string, i: nat)
    requires i < |Lines(s)| && !IsBulletLine(Lines(s)[i])
    ensures var out := Lines(Process(s));
            |out| == |Lines(s)| && out[i] == StripStars(Lines(s)[i])
  {
    ProcessByLines(s);
  }

  /** A reply without asterisks is left unchanged. */
  lemma ProcessStarFree(s: string)
    requires '*' !in s
    ensures Process(s) == s
  {
    var ls := Lines(s);
    forall i | 0 <= i < |ls| ensures BulletLines(ls)[i] == ls[i] {
      if IsBulletLine(ls[i]) {
        LinesChars(s, i, ls[i][LeadLen(ls[i])]);
      }
    }
    assert BulletLines(ls) == ls;
    UnlinesLines(s);
    StripStarsFree(s);
  }

  /** Formatting twice is formatting once. */
  lemma ProcessIdempotent(s: string)
    ensures Process(Process(s)) == Process(s)
  {
    ProcessStarFree(Process(s));
  }

  /** A line "* x" with a star-free rest becomes "• x". */
  lemma BulletExampleLine(x: string)
    requires '*' !in x
    ensures FormatLine("* " + x) == "• " + x
  {
    var l := "* " + x;
    assert l[0] == '*' && l[1] == ' ';
    assert LeadLen(l) == 0;
    assert l[2..] == x;
    StripStarsFree(x);
  }

  /** Two bullet lines become two bullets. */
  lemma ProcessTwoBullets(x: string, y: string)
    requires '*' !in x && '*' !in y && '\n' !in x && '\n' !in y
    ensures Process("* " + x + "\n* " + y) == "• " + x + "\n• " + y
  {
    var ls := ["* " + x, "* " + y];
    var s := Unlines(ls);
    assert s == "* " + x + "\n* " + y;
    LinesUnlines(ls);
    ProcessByLines(s);
    BulletExampleLine(x);
    BulletExampleLine(y);
    var fs := FormatLines(ls);
    assert fs == ["• " + x, "• " + y];
  }

  /** A two-item bulleted reply. */
  lemma ProcessBulletsExample()
    ensures Process("* d1\n* d2") == "• d1\n• d2"
  {
    ProcessTwoBullets("d1", "d2");
    assert "* " + "d1" + "\n* " + "d2" == "* d1\n* d2";
    assert "• " + "d1" + "\n• " + "d2" == "• d1\n• d2";
  }

  /** A single line that is not a bullet only loses its asterisks. */
  lemma PlainProcess(l: string)
    requires '\n' !in l && !IsBulletLine(l)
    ensures Process(l) == StripStars(l)
  {
    LinesUnlines([l]);
    ProcessByLines(l);
    assert FormatLines([l]) == [FormatLine(l)];
  }

  /** Asterisks in the middle of a line are simply deleted. */
  lemma ProcessInlineExample()
    ensures Process("a*b*c") == "abc"
  {
    var l := "a*b*c";
    assert !IsSpace('a');
    assert LeadLen(l) == 0;
    assert !IsBulletLine(l);
    assert l[4..] == "c" && l[3..] == "*" + l[4..] && l[2..] == "b" + l[3..] && l[1..] == "*" + l[2..];
    assert StripStars(l[4..]) == "c";
    assert StripStars(l[2..]) == "bc";
    assert StripStars(l) == "abc";
    PlainProcess(l);
  }
}
