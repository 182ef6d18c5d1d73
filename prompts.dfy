/** The texts the application builds around the language model: the prompt
    for one item, the prompt for all items, the heading put before the reply,
    and the text finally shown in the results panel. */
module Prompts {
  import opened Text
  import opened Items

  /** `describe_one_action`'s prompt for the selected item. */
  function SinglePrompt(it: Item): string
  {
    "Describe the " + [it.character] + " emoji (" + it.name
      + ") visually, for a blind person, in one concise sentence."
  }

  /** The heading shown above the reply for one item. */
  function SinglePrefix(it: Item): string
  {
    "Description for " + [it.character] + ":\n\n"
  }

  const BatchIntro := "For each of the following, provide a one-sentence visual description for a blind person: "

  /** The heading shown above the reply for all items. */
  const BatchPrefix := "Descriptions:\n\n"

  /** The notice appended after every reply. */
  const Disclaimer := "\n\n---\nAI-Generated. Verify important information."

  /** One item in the batch prompt: `f'{character} ({name})'`. */
  function Part(it: Item): string
  {
    [it.character] + " (" + it.name + ")"
  }

  /** `describe_all_action`'s prompt: the introduction, then the parts of all
      items joined with ", ". */
  function BatchPrompt(items: seq<Item>): string
  {
    BatchIntro + JoinWith(", ", Map(Part, items))
  }

  /** The batch prompt for one item is the introduction and that item's part. */
  lemma BatchPromptOne(it: Item)
    ensures BatchPrompt([it]) == BatchIntro + Part(it)
  {
  }

  /** Each further item adds ", " and its part at the end, so the parts stand
      in the order of the items. */
  lemma BatchPromptSnoc(items: seq<Item>, it: Item)
    requires |items| >= 1
    ensures BatchPrompt(items + [it]) == BatchPrompt(items) + ", " + Part(it)
  {
    MapSnoc(Part, items, it);
    JoinSnoc(", ", Map(Part, items), Part(it));
  }

  /** The single prompt names its item: different items give different prompts. */
  lemma SinglePromptInjective(a: Item, b: Item)
    requires SinglePrompt(a) == SinglePrompt(b)
    ensures a == b
  {
    var tail := ") visually, for a blind person, in one concise sentence.";
    var pa, pb := SinglePrompt(a), SinglePrompt(b);
    assert pa[13] == a.character && pb[13] == b.character;
    assert pa[22..|pa| - |tail|] == a.name;
    assert pb[22..|pb| - |tail|] == b.name;
  }

  /** `on_task_finished`'s text: the heading, the formatted reply and the
      notice. */
  function Displayed(prefix: string, description: string): string
  {
    prefix + description + Disclaimer
  }

  /** The heading, the formatted reply and the notice can each be read back
      from the text shown. */
  lemma DisplayedParts(prefix: string, description: string)
    ensures var r := Displayed(prefix, description);
            |r| == |prefix| + |description| + |Disclaimer|
            && r[..|prefix|] == prefix
            && r[|prefix|..|prefix| + |description|] == description
            && r[|prefix| + |description|..] == Disclaimer
  {
  }
}
