/**
 * The `Editor` component's state and the handlers that change it.
 *
 * React state becomes fields; a handler that calls `setX(v)` assigns the
 * field. The model runs each handler, `generate` included, to completion
 * without interleaving other handlers, so the functional updater of the
 * stream loop sees the list as the run itself left it.
 */
module EditorState {
  import opened Wrappers
  import opened Prompts
  import NodeStore
  import Placeholders
  import opened ChainExecutor

  class Editor {
    var prompts: seq<Prompt>
    /** `selectedPrompt`: the node whose settings panel is open. */
    var selected: Option<int>
    /** `loadingPrompt`: the node whose generation started and did not stream to the end. */
    var loading: Option<int>
    var apiKey: Option<string>
    /** The list length the renumbering effect last ran for. */
    var lengthSeen: nat

    /**
     * The editor once the stored chain is loaded: the mount-time effect ran
     * on the empty list, so a non-empty chain triggers the renumbering pass.
     */
    constructor (loaded: seq<Prompt>)
      ensures prompts == loaded && selected == None && loading == None
      ensures apiKey == None && lengthSeen == 0
    {
      prompts := loaded;
      selected := None;
      loading := None;
      apiKey := None;
      lengthSeen := 0;
    }

    /** The API-key input. */
    method SetApiKey(key: string)
      modifies this`apiKey
      ensures apiKey == Some(key)
    {
      apiKey := Some(key);
    }

    /** `addPrompt`: one more node with the default settings, after all existing ones. */
    method AddPrompt()
      modifies this`prompts
      ensures |prompts| == |old(prompts)| + 1
      ensures prompts[..|old(prompts)|] == old(prompts)
      ensures var p := prompts[|old(prompts)|];
        && p.previousResponse == "" && p.systemNotes == "" && p.user == "" && p.response == ""
        && p.temperature == 0.7 && p.top_p == 0.9 && p.frequency_penalty == 0.0 && p.presence_penalty == 0.0
        && p.max_tokens == 100.0 && p.model == DefaultModel
    {
      prompts := prompts + [NodeStore.NewPrompt];
    }

    /**
     * `handleDeletePrompt(index)`: the node leaves the list; the selection is
     * cleared only when it was this very index (a later selection is not
     * shifted), and the loading slot is not touched.
     */
    method DeletePrompt(index: int)
      modifies this`prompts, this`selected
      ensures prompts == NodeStore.Without(old(prompts), index)
      ensures selected == if old(selected) == Some(index) then None else old(selected)
      ensures loading == old(loading)
    {
      prompts := NodeStore.Without(prompts, index);
      if selected == Some(index) {
        selected := None;
      }
    }

    /** `handleUpdatePrompt(index, key, value)`. */
    method UpdatePrompt(index: int, field: Field, value: Value)
      requires Fits(field, value)
      modifies this`prompts
      ensures prompts == NodeStore.Updated(old(prompts), index, field, value)
    {
      prompts := NodeStore.Updated(prompts, index, field, value);
    }

    /** A click on node `i`: ignored while `i` is the loading node, otherwise it selects `i`. */
    method ClickPrompt(i: int)
      modifies this`selected
      ensures selected == if loading == Some(i) then old(selected) else Some(i)
    {
      if loading == Some(i) {
        return;
      }
      selected := Some(i);
    }

    /** A click anywhere outside a prompt item clears the selection. */
    method ClickOutside()
      modifies this`selected
      ensures selected == None
    {
      selected := None;
    }

    /** The effect keyed on `prompts.length`: when the length changed, every user text is renumbered. */
    method RenumberOnResize()
      modifies this`prompts, this`lengthSeen
      ensures lengthSeen == |prompts|
      ensures prompts == if |old(prompts)| == old(lengthSeen) then old(prompts)
                         else Placeholders.UpdateResponseNumbers(old(prompts))
    {
      if |prompts| != lengthSeen {
        prompts := Placeholders.UpdateResponseNumbers(prompts);
        lengthSeen := |prompts|;
      }
    }

    /** `generate(index, run)`, fed one reply per request it sends. */
    method Generate(index: int, run: bool, replies: seq<Reply>) returns (requests: seq<Request>, outcome: Outcome)
      requires |prompts| - index <= |replies|
      modifies this`prompts, this`loading
      ensures var r := Generation(old(prompts), old(prompts), apiKey, old(loading), index, run, replies);
        prompts == r.prompts && loading == r.loading && requests == r.requests && outcome == r.outcome
    {
      requests, outcome := GenerateIn(prompts, apiKey, index, run, replies);
    }

    /**
     * The body of `generate` inside the closure of the render that started
     * the run: `snapshot` and `key` are that render's `prompts` and `apiKey`.
     */
    method GenerateIn(snapshot: seq<Prompt>, key: Option<string>, index: int, run: bool, replies: seq<Reply>)
      returns (requests: seq<Request>, outcome: Outcome)
      requires |prompts| == |snapshot| && |snapshot| - index <= |replies|
      modifies this`prompts, this`loading
      ensures var r := Generation(snapshot, old(prompts), key, old(loading), index, run, replies);
        prompts == r.prompts && loading == r.loading && requests == r.requests && outcome == r.outcome
      decreases |snapshot| - index
    {
      if !HasKey(key) {
        return [], MissingKey;
      }
      loading := Some(index);
      if index < 0 || |snapshot| <= index {
        // `prompts[index].user` throws while the request body is built
        return [], Failed(index);
      }
      var request := RequestFor(snapshot, index, key.value);
      ghost var start := old(prompts);
      var finished, verdict := Answer(index, replies[0]);
      // the loop only ends with `done` set, so `done &&` adds nothing
      if finished && run && index + 1 < |snapshot| {
        var rest;
        rest, outcome := GenerateIn(snapshot, key, index + 1, run, replies[1..]);
        requests := [request] + rest;
        GenerationStep(snapshot, start, key, old(loading), index, run, replies);
        assert Generation(snapshot, start, key, old(loading), index, run, replies).requests[0] == request;
      } else {
        requests, outcome := [request], verdict;
        GenerationStop(snapshot, start, key, old(loading), index, run, replies);
        assert Generation(snapshot, start, key, old(loading), index, run, replies).requests[0] == request;
      }
    }

    /**
     * What `generate` does with the answer to the request for node `index`: a
     * rejected fetch or a non-ok status fails, a missing body returns, and a
     * body is streamed into the node; only a stream read to the end clears
     * the loading slot.
     */
    method Answer(index: int, reply: Reply) returns (finished: bool, outcome: Outcome)
      requires 0 <= index < |prompts|
      modifies this`prompts, this`loading
      ensures finished <==> reply.Body? && reply.ending == Finished
      ensures outcome == Verdict(reply, index)
      ensures prompts == old(prompts)[index := AfterReply(old(prompts)[index], reply)]
      ensures loading == if finished then None else old(loading)
    {
      finished := false;
      match reply {
        case Rejected => outcome := Failed(index);
        case NotOk => outcome := Failed(index);
        case NoBody => outcome := Abandoned(index);
        case Body(chunks, ending) =>
          var threw := ReadStream(index, chunks, ending);
          if threw {
            outcome := Failed(index);
          } else {
            loading := None;
            finished := true;
            outcome := Done(index);
          }
      }
    }

    /**
     * The `while (!done)` loop: each read appends its decoded chunk to the
     * accumulator and writes the accumulator as node `index`'s response. The
     * last read of a finished stream is the `done` read, which decodes to the
     * empty string and still writes. `threw` is the read that throws instead.
     */
    method ReadStream(index: int, chunks: seq<string>, ending: Ending) returns (threw: bool)
      requires 0 <= index < |prompts|
      modifies this`prompts
      ensures threw <==> ending == ReadFailed
      ensures prompts == old(prompts)[index := Streamed(old(prompts)[index], chunks, ending)]
    {
      var done := false;
      var responseValue := "";
      var taken := 0;
      while !done
        invariant 0 <= taken <= |chunks|
        invariant responseValue == Concat(chunks[..taken])
        invariant done ==> taken == |chunks| && ending == Finished
        invariant prompts == if taken == 0 && !done then old(prompts)
                             else old(prompts)[index := old(prompts)[index].(response := responseValue)]
        decreases |chunks| - taken, if done then 0 else 1
      {
        var chunk: string;
        if taken < |chunks| {
          chunk := chunks[taken];
          assert chunks[..taken + 1] == chunks[..taken] + [chunk];
          taken := taken + 1;
        } else if ending == Finished {
          chunk := "";
          done := true;
        } else {
          assert chunks[..taken] == chunks;
          return true;
        }
        responseValue := responseValue + chunk;
        prompts := prompts[index := prompts[index].(response := responseValue)];
      }
      assert chunks[..taken] == chunks;
      threw := false;
    }
  }
}
