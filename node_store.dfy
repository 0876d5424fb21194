/**
 * The list operations of the editor. Each builds a new list (spread, `filter`,
 * `map`) that then replaces the `prompts` state.
 */
module NodeStore {
  import opened Prompts

  /** The node `addPrompt` appends. */
  const NewPrompt: Prompt := Prompt(
    previousResponse := "",
    systemNotes := "",
    user := "",
    response := "",
    temperature := 0.7,
    top_p := 0.9,
    frequency_penalty := 0.0,
    presence_penalty := 0.0,
    model := DefaultModel,
    max_tokens := 100.0)

  /** `prompts.filter((_, i) => i !== index)`. */
  function Without(prompts: seq<Prompt>, index: int): (r: seq<Prompt>)
    ensures |r| == if 0 <= index < |prompts| then |prompts| - 1 else |prompts|
  {
    if prompts == [] then []
    else (if index == 0 then [] else [prompts[0]]) + Without(prompts[1..], index - 1)
  }

  /** The filter removes exactly position `index` and keeps the others in order. */
  lemma {:induction false} WithoutRemovesOne(prompts: seq<Prompt>, index: int)
    ensures Without(prompts, index) ==
            if 0 <= index < |prompts| then prompts[..index] + prompts[index + 1..] else prompts
  {
    if prompts != [] {
      WithoutRemovesOne(prompts[1..], index - 1);
      if index == 0 {
        assert prompts[index + 1..] == prompts[1..];
      } else if 0 < index < |prompts| {
        assert prompts[..index] == [prompts[0]] + prompts[1..][..index - 1];
        assert prompts[index + 1..] == prompts[1..][index..];
      } else {
        assert prompts == [prompts[0]] + prompts[1..];
      }
    }
  }

  /** `prompts.map((prompt, i) => i === index ? { ...prompt, [key]: value } : prompt)`. */
  function Updated(prompts: seq<Prompt>, index: int, field: Field, value: Value): (r: seq<Prompt>)
    requires Fits(field, value)
    ensures |r| == |prompts|
  {
    if prompts == [] then []
    else [if index == 0 then Set(prompts[0], field, value) else prompts[0]]
         + Updated(prompts[1..], index - 1, field, value)
  }

  /**
   * The map rewrites one field of node `index` and nothing else: the list keeps
   * its order, every other node is identical, node `index` becomes
   * `{ ...prompt, [key]: value }`, and an index outside the list leaves the
   * list as it was.
   */
  lemma {:induction false} UpdatedChangesOneField(prompts: seq<Prompt>, index: int, field: Field, value: Value)
    requires Fits(field, value)
    ensures var r := Updated(prompts, index, field, value);
      && (forall j :: 0 <= j < |prompts| && j != index ==> r[j] == prompts[j])
      && (0 <= index < |prompts| ==> r[index] == Set(prompts[index], field, value))
  {
    if prompts != [] {
      UpdatedChangesOneField(prompts[1..], index - 1, field, value);
      var r := Updated(prompts, index, field, value);
      assert r[1..] == Updated(prompts[1..], index - 1, field, value);
      forall j | 0 < j < |prompts| ensures r[j] == r[1..][j - 1] && prompts[j] == prompts[1..][j - 1] {
      }
      if 0 <= index < |prompts| {
        var q := Set(prompts[index], field, value);
        assert forall g :: Get(r[index], g) == Get(q, g);
        FieldsDetermine(r[index], q);
      }
    }
  }
}
