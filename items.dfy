/** The recognised characters and the two parallel lists that hold them:
    the backing list of (character, name) records and the rows of the list
    widget, one "{c} - {n}" string per record. */
module Items {
  import opened Wrappers

  /** One recognised character with its Unicode name. */
  datatype Item = Item(character: char, name: string)

  /** The Unicode name lookup stands for `unicodedata.name`; `None` is the
      `ValueError` it raises for a character without a name. */
  type NameTable = char -> Option<string>

  /** The items for a text: every character that has a name, paired with it,
      in input order, duplicates kept. */
  function Classify(text: string, nameOf: NameTable): (r: seq<Item>)
    ensures |r| <= |text|
  {
    if text == [] then []
    else
      var here := match nameOf(text[0])
        case Some(n) => [Item(text[0], n)]
        case None => [];
      here + Classify(text[1..], nameOf)
  }

  /** Every item comes from the text and carries the name the table gives
      its character. */
  lemma {:induction false} ClassifyNamed(text: string, nameOf: NameTable, it: Item)
    requires it in Classify(text, nameOf)
    ensures it.character in text && nameOf(it.character) == Some(it.name)
  {
    var rest := Classify(text[1..], nameOf);
    if it in rest {
      ClassifyNamed(text[1..], nameOf, it);
    }
  }

  /** Classifying a text piece by piece gives the same items in the same order. */
  lemma {:induction false} ClassifyAppend(a: string, b: string, nameOf: NameTable)
    ensures Classify(a + b, nameOf) == Classify(a, nameOf) + Classify(b, nameOf)
  {
    if a == [] {
      assert a + b == b;
    } else {
      assert (a + b)[0] == a[0] && (a + b)[1..] == a[1..] + b;
      ClassifyAppend(a[1..], b, nameOf);
    }
  }

  /** One more character adds its item at the end, if it has a name. */
  lemma ClassifySnoc(text: string, c: char, nameOf: NameTable)
    ensures nameOf(c).Some? ==> Classify(text + [c], nameOf) == Classify(text, nameOf) + [Item(c, nameOf(c).value)]
    ensures nameOf(c).None? ==> Classify(text + [c], nameOf) == Classify(text, nameOf)
  {
    ClassifyAppend(text, [c], nameOf);
    assert [c][1..] == [];
  }

  /** The characters of the items. */
  function Characters(items: seq<Item>): (cs: string)
    ensures |cs| == |items|
    ensures forall i :: 0 <= i < |items| ==> cs[i] == items[i].character
  {
    if items == [] then [] else [items[0].character] + Characters(items[1..])
  }

  /** Each character occurs among the items as often as in the text when it
      has a name, and not at all otherwise: nothing is merged, nothing invented. */
  lemma {:induction false} ClassifyCounts(text: string, nameOf: NameTable, c: char)
    ensures multiset(Characters(Classify(text, nameOf)))[c]
            == if nameOf(c).Some? then multiset(text)[c] else 0
  {
    if text != [] {
      var h, t := text[0], text[1..];
      ClassifyCounts(t, nameOf, c);
      var rest := Classify(t, nameOf);
      assert text == [h] + t;
      assert multiset(text)[c] == multiset([h])[c] + multiset(t)[c];
      if nameOf(h).Some? {
        var it := Item(h, nameOf(h).value);
        assert Classify(text, nameOf) == [it] + rest;
        CharactersCons(it, rest);
        assert multiset(Characters([it] + rest))[c] == multiset([h])[c] + multiset(Characters(rest))[c];
      } else {
        assert Classify(text, nameOf) == rest;
      }
    }
  }

  /** The characters of a list with one more item in front. */
  lemma CharactersCons(it: Item, items: seq<Item>)
    ensures Characters([it] + items) == [it.character] + Characters(items)
  {
  }

  /** When every character has a name, the items are the text itself, one
      item per character, in order. */
  lemma {:induction false} ClassifyAllNamed(text: string, nameOf: NameTable)
    requires forall i :: 0 <= i < |text| ==> nameOf(text[i]).Some?
    ensures var r := Classify(text, nameOf);
            |r| == |text| &&
            forall i :: 0 <= i < |text| ==> r[i] == Item(text[i], nameOf(text[i]).value)
  {
    if text != [] {
      ClassifyAllNamed(text[1..], nameOf);
    }
  }

  /** The row the list widget shows for an item: `f"{char} - {name}"`. */
  function DisplayLine(it: Item): string
  {
    [it.character] + " - " + it.name
  }

  /** A row names its item: two items with the same row are the same item. */
  lemma DisplayLineInjective(a: Item, b: Item)
    requires DisplayLine(a) == DisplayLine(b)
    ensures a == b
  {
    assert DisplayLine(a)[0] == a.character && DisplayLine(b)[0] == b.character;
    assert DisplayLine(a)[4..] == a.name && DisplayLine(b)[4..] == b.name;
  }

  /** The rows the list widget shows for the items, one per item. */
  function DisplayLines(items: seq<Item>): (rows: seq<string>)
    ensures |rows| == |items|
  {
    seq(|items|, i requires 0 <= i < |items| => DisplayLine(items[i]))
  }

  /** Row `i` is the display line of item `i`. */
  lemma DisplayLinesAt(items: seq<Item>, i: nat)
    requires i < |items|
    ensures DisplayLines(items)[i] == DisplayLine(items[i])
  {
  }

  /** The list widget's rows stand index for index for the items. */
  predicate Aligned(items: seq<Item>, rows: seq<string>)
  {
    rows == DisplayLines(items)
  }

  /** Adding an item and its row at the ends keeps the lists aligned. */
  lemma DisplayLinesSnoc(items: seq<Item>, it: Item)
    ensures DisplayLines(items + [it]) == DisplayLines(items) + [DisplayLine(it)]
  {
  }

  /** `del xs[i]`: the element at `i` goes, the others keep their order and
      move up by one after it. */
  function RemoveAt<T>(xs: seq<T>, i: nat): (r: seq<T>)
    requires i < |xs|
    ensures |r| == |xs| - 1
  {
    xs[..i] + xs[i + 1..]
  }

  /** Element `j` after removing index `i`: the elements before `i` stay in
      place, those after it move one place earlier. */
  lemma RemoveAtIndex<T>(xs: seq<T>, i: nat, j: nat)
    requires i < |xs| && j < |xs| - 1
    ensures RemoveAt(xs, i)[j] == if j < i then xs[j] else xs[j + 1]
  {
  }

  /** Removing index `i` loses exactly one occurrence of `xs[i]`. */
  lemma RemoveAtMultiset<T>(xs: seq<T>, i: nat)
    requires i < |xs|
    ensures multiset(RemoveAt(xs, i)) + multiset{xs[i]} == multiset(xs)
  {
    assert xs == xs[..i] + [xs[i]] + xs[i + 1..];
  }

  /** Removing the same index from both lists keeps them aligned. */
  lemma RemoveKeepsAligned(items: seq<Item>, i: nat)
    requires i < |items|
    ensures DisplayLines(RemoveAt(items, i)) == RemoveAt(DisplayLines(items), i)
  {
    var a, b := DisplayLines(RemoveAt(items, i)), RemoveAt(DisplayLines(items), i);
    forall j | 0 <= j < |a|
      ensures a[j] == b[j]
    {
      RemoveAtIndex(items, i, j);
      RemoveAtIndex(DisplayLines(items), i, j);
    }
  }
}
