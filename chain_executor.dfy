/**
 * What `generate(index, run)` does, as a function of the list it starts from.
 *
 * The HTTP exchange is given, one `Reply` per request sent: the fetch may
 * reject, answer with a non-ok status, answer without a body, or stream
 * already-decoded chunks that end either with the final `done` read or with a
 * read that throws. `generate` closes over the `prompts` of the render that
 * started it, and so does the recursive call for the next node: requests and
 * the length check read that `snapshot`, while streamed responses are written
 * into the live list through the functional state updater.
 */
module ChainExecutor {
  import opened Wrappers
  import opened Prompts
  import Placeholders

  datatype Ending = Finished | ReadFailed

  datatype Reply =
    | Rejected                                  // `fetch` throws
    | NotOk                                     // `!response.ok`
    | NoBody                                    // `response.body` is null
    | Body(chunks: seq<string>, ending: Ending) // decoded chunks, then the last read

  /** The JSON body posted to the completion route. */
  datatype Request = Request(
    previousResponse: string,
    systemNotes: string,
    user: string,
    response: string,
    temperature: real,
    top_p: real,
    frequency_penalty: real,
    presence_penalty: real,
    model: string,
    max_tokens: real,
    apiKey: string)

  datatype Outcome =
    | MissingKey        // the API-key toast; nothing else happens
    | Failed(at: int)   // the failure toast for node `at`
    | Abandoned(at: int) // no body: a silent return
    | Done(last: int)   // node `last` streamed to the end and the run stopped there

  /** The observable result of a run: the live list, the loading slot, what was sent, how it ended. */
  datatype Run = Run(prompts: seq<Prompt>, loading: Option<int>, requests: seq<Request>, outcome: Outcome)

  /** `!apiKey` is false: the key is neither null nor the empty string. */
  predicate HasKey(key: Option<string>) {
    key.Some? && key.value != ""
  }

  /** The accumulator after the given chunks, in arrival order: empty before any read, and holding every chunk. */
  function Concat(chunks: seq<string>): (r: string)
    ensures chunks == [] ==> r == ""
    ensures forall i :: 0 <= i < |chunks| ==> |chunks[i]| <= |r|
  {
    if chunks == [] then ""
    else
      var front := chunks[..|chunks| - 1];
      assert forall i :: 0 <= i < |front| ==> chunks[i] == front[i];
      Concat(front) + chunks[|chunks| - 1]
  }

  /**
   * A node after its stream: every successful read writes the accumulator as
   * its response, so the old response survives only when the very first read throws.
   */
  function Streamed(p: Prompt, chunks: seq<string>, ending: Ending): (q: Prompt)
    ensures q.(response := p.response) == p
    ensures ending == Finished ==> q.response == Concat(chunks)
    ensures chunks != [] ==> q.response == Concat(chunks)
  {
    if chunks == [] && ending == ReadFailed then p else p.(response := Concat(chunks))
  }

  function AfterReply(p: Prompt, reply: Reply): Prompt {
    if reply.Body? then Streamed(p, reply.chunks, reply.ending) else p
  }

  /** `{ ...prompts[index], apiKey, model: prompts[index].model.name, user: replaceResponsePlaceholders(prompts[index].user) }`. */
  function RequestFor(snapshot: seq<Prompt>, index: int, key: string): Request
    requires 0 <= index < |snapshot|
  {
    var p := snapshot[index];
    Request(p.previousResponse, p.systemNotes, Placeholders.Resolve(p.user, snapshot), p.response,
            p.temperature, p.top_p, p.frequency_penalty, p.presence_penalty,
            p.model.name, p.max_tokens, key)
  }

  /** How a node's attempt ends, given its reply. */
  function Verdict(reply: Reply, at: int): (o: Outcome)
    ensures o.Done? <==> reply.Body? && reply.ending == Finished
    ensures o.Abandoned? <==> reply == NoBody
    ensures !o.MissingKey? && (o.Failed? ==> o.at == at) && (o.Abandoned? ==> o.at == at) && (o.Done? ==> o.last == at)
  {
    match reply
    case Rejected => Failed(at)
    case NotOk => Failed(at)
    case NoBody => Abandoned(at)
    case Body(_, ending) => if ending == Finished then Done(at) else Failed(at)
  }

  /**
   * `generate(index, run)` started on `snapshot`, with the live list `live`
   * and the loading slot `loading` when it is called.
   */
  function Generation(snapshot: seq<Prompt>, live: seq<Prompt>, key: Option<string>, loading: Option<int>,
                      index: int, run: bool, replies: seq<Reply>): (r: Run)
    requires |live| == |snapshot| && |snapshot| - index <= |replies|
    ensures |r.prompts| == |live|
    ensures r.requests != [] ==> 0 <= index && index + |r.requests| <= |snapshot|
    decreases |snapshot| - index
  {
    if !HasKey(key) then Run(live, loading, [], MissingKey)
    // `prompts[index].user` throws while the request body is built
    else if index < 0 || |snapshot| <= index then Run(live, Some(index), [], Failed(index))
    else
      var request := RequestFor(snapshot, index, key.value);
      match replies[0]
      case Rejected => Run(live, Some(index), [request], Failed(index))
      case NotOk => Run(live, Some(index), [request], Failed(index))
      case NoBody => Run(live, Some(index), [request], Abandoned(index))
      case Body(chunks, ending) =>
        var written := live[index := Streamed(live[index], chunks, ending)];
        if ending == ReadFailed then Run(written, Some(index), [request], Failed(index))
        else if run && index + 1 < |snapshot| then
          var rest := Generation(snapshot, written, key, None, index + 1, run, replies[1..]);
          Run(rest.prompts, rest.loading, [request] + rest.requests, rest.outcome)
        else Run(written, None, [request], Done(index))
  }

  /** One step of a chain run: the node streamed to the end, and the run goes on from the next node. */
  lemma GenerationStep(snapshot: seq<Prompt>, live: seq<Prompt>, key: Option<string>, loading: Option<int>,
                       index: int, run: bool, replies: seq<Reply>)
    requires |live| == |snapshot| && |snapshot| - index <= |replies|
    requires HasKey(key) && 0 <= index && index + 1 < |snapshot| && run
    requires replies[0].Body? && replies[0].ending == Finished
    ensures var rest := Generation(snapshot, live[index := AfterReply(live[index], replies[0])], key, None, index + 1, run, replies[1..]);
      var r := Generation(snapshot, live, key, loading, index, run, replies);
      && r.prompts == rest.prompts && r.loading == rest.loading && r.outcome == rest.outcome
      && |r.requests| == 1 + |rest.requests| && r.requests[1..] == rest.requests
  {
  }

  /** One step of a run that stops at `index`, with the verdict of its reply. */
  lemma GenerationStop(snapshot: seq<Prompt>, live: seq<Prompt>, key: Option<string>, loading: Option<int>,
                       index: int, run: bool, replies: seq<Reply>)
    requires |live| == |snapshot| && |snapshot| - index <= |replies|
    requires HasKey(key) && 0 <= index < |snapshot|
    requires !(replies[0].Body? && replies[0].ending == Finished && run && index + 1 < |snapshot|)
    ensures var r := Generation(snapshot, live, key, loading, index, run, replies);
      && r.prompts == live[index := AfterReply(live[index], replies[0])]
      && r.outcome == Verdict(replies[0], index)
      && r.loading == (if r.outcome.Done? then None else Some(index))
      && |r.requests| == 1
  {
  }

  /**
   * Without an API key nothing happens at all; with one, an index outside the
   * list sets the loading slot, sends nothing and fails.
   */
  lemma GenerationRefused(snapshot: seq<Prompt>, live: seq<Prompt>, key: Option<string>, loading: Option<int>,
                          index: int, run: bool, replies: seq<Reply>)
    requires |live| == |snapshot| && |snapshot| - index <= |replies|
    requires !HasKey(key) || index < 0 || |snapshot| <= index
    ensures var r := Generation(snapshot, live, key, loading, index, run, replies);
      && r.prompts == live && r.requests == []
      && (!HasKey(key) ==> r.loading == loading && r.outcome == MissingKey)
      && (HasKey(key) ==> r.loading == Some(index) && r.outcome == Failed(index))
  {
  }

  /**
   * The requests of a run go to consecutive nodes from `index` on, and each
   * is built from the snapshot, not from the live list.
   */
  lemma {:induction false} GenerationRequests(snapshot: seq<Prompt>, live: seq<Prompt>, key: Option<string>,
                                              loading: Option<int>, index: int, run: bool, replies: seq<Reply>)
    requires |live| == |snapshot| && |snapshot| - index <= |replies|
    requires HasKey(key)
    ensures forall k :: 0 <= k < |Generation(snapshot, live, key, loading, index, run, replies).requests| ==>
              Generation(snapshot, live, key, loading, index, run, replies).requests[k] == RequestFor(snapshot, index + k, key.value)
    decreases |snapshot| - index, 1
  {
    var r := Generation(snapshot, live, key, loading, index, run, replies);
    if 0 <= index && index + 1 < |snapshot| && replies[0].Body? && replies[0].ending == Finished && run {
      GenerationRequestsChain(snapshot, live, key, loading, index, run, replies);
    } else if 0 <= index < |snapshot| {
      assert r.requests == [RequestFor(snapshot, index, key.value)];
    } else {
      assert r.requests == [];
    }
  }

  /** `GenerationRequests` for a run that goes on past `index`. */
  lemma {:induction false} GenerationRequestsChain(snapshot: seq<Prompt>, live: seq<Prompt>, key: Option<string>,
                                                   loading: Option<int>, index: int, run: bool, replies: seq<Reply>)
    requires |live| == |snapshot| && |snapshot| - index <= |replies|
    requires HasKey(key) && 0 <= index && index + 1 < |snapshot| && run
    requires replies[0].Body? && replies[0].ending == Finished
    ensures forall k :: 0 <= k < |Generation(snapshot, live, key, loading, index, run, replies).requests| ==>
              Generation(snapshot, live, key, loading, index, run, replies).requests[k] == RequestFor(snapshot, index + k, key.value)
    decreases |snapshot| - index, 0
  {
    var r := Generation(snapshot, live, key, loading, index, run, replies);
    var written := live[index := AfterReply(live[index], replies[0])];
    var rest := Generation(snapshot, written, key, None, index + 1, run, replies[1..]);
    GenerationStep(snapshot, live, key, loading, index, run, replies);
    GenerationRequests(snapshot, written, key, None, index + 1, run, replies[1..]);
    assert r.requests[0] == RequestFor(snapshot, index, key.value);
    RequestsCarry(r.requests, rest.requests, snapshot, index, key.value);
  }

  /** Requests for consecutive nodes from `index + 1` on, preceded by the one for `index`. */
  lemma RequestsCarry(rs: seq<Request>, rest: seq<Request>, snapshot: seq<Prompt>, index: int, key: string)
    requires 0 <= index && index + |rs| <= |snapshot|
    requires rs != [] && rs[0] == RequestFor(snapshot, index, key) && rs[1..] == rest
    requires forall k :: 0 <= k < |rest| ==> rest[k] == RequestFor(snapshot, index + 1 + k, key)
    ensures forall k :: 0 <= k < |rs| ==> rs[k] == RequestFor(snapshot, index + k, key)
  {
    forall k | 1 <= k < |rs| ensures rs[k] == RequestFor(snapshot, index + k, key) {
      assert rs[k] == rest[k - 1];
    }
  }

  /**
   * The run moves on to node `index + 1` only when `run` is set, the reply
   * for the node before it streamed to the end, and the snapshot has that node.
   */
  lemma {:induction false} GenerationContinues(snapshot: seq<Prompt>, live: seq<Prompt>, key: Option<string>,
                                               loading: Option<int>, index: int, run: bool, replies: seq<Reply>)
    requires |live| == |snapshot| && |snapshot| - index <= |replies|
    ensures var r := Generation(snapshot, live, key, loading, index, run, replies);
      && (forall k :: 0 <= k < |r.requests| - 1 ==> replies[k].Body? && replies[k].ending == Finished)
      && (!run ==> |r.requests| <= 1)
    decreases |snapshot| - index
  {
    var r := Generation(snapshot, live, key, loading, index, run, replies);
    if HasKey(key) && 0 <= index < |snapshot| && replies[0].Body? && replies[0].ending == Finished
       && run && index + 1 < |snapshot| {
      var written := live[index := AfterReply(live[index], replies[0])];
      var rest := Generation(snapshot, written, key, None, index + 1, run, replies[1..]);
      GenerationStep(snapshot, live, key, loading, index, run, replies);
      GenerationContinues(snapshot, written, key, None, index + 1, run, replies[1..]);
      forall k | 1 <= k < |r.requests| - 1 ensures replies[k].Body? && replies[k].ending == Finished {
        assert replies[k] == replies[1..][k - 1];
      }
    } else if HasKey(key) && 0 <= index < |snapshot| {
      GenerationStop(snapshot, live, key, loading, index, run, replies);
    } else {
      assert r.requests == [];
    }
  }

  /**
   * `r` is a run from node `index` that sent at least one request and ended
   * with the verdict of the last reply it read. Only a run that streamed to
   * the end clears the loading slot; a failure or a missing body leaves it on
   * the node that stopped the run. A chain run that ends well has reached
   * the last of the `n` nodes.
   */
  ghost predicate Ended(r: Run, index: int, n: int, run: bool, replies: seq<Reply>) {
    var last := index + |r.requests| - 1;
    && 0 < |r.requests| <= |replies|
    && r.outcome == Verdict(replies[|r.requests| - 1], last)
    && r.loading == (if r.outcome.Done? then None else Some(last))
    && (r.outcome.Done? && run ==> last == n - 1)
  }

  /** A run with a key and an index inside the list ends as `Ended` says. */
  lemma {:induction false} GenerationOutcome(snapshot: seq<Prompt>, live: seq<Prompt>, key: Option<string>,
                                             loading: Option<int>, index: int, run: bool, replies: seq<Reply>)
    requires |live| == |snapshot| && |snapshot| - index <= |replies|
    requires HasKey(key) && 0 <= index < |snapshot|
    ensures Ended(Generation(snapshot, live, key, loading, index, run, replies), index, |snapshot|, run, replies)
    decreases |snapshot| - index, 1
  {
    if replies[0].Body? && replies[0].ending == Finished && run && index + 1 < |snapshot| {
      GenerationOutcomeChain(snapshot, live, key, loading, index, run, replies);
    } else {
      GenerationStop(snapshot, live, key, loading, index, run, replies);
    }
  }

  /** `GenerationOutcome` for a run that goes on past `index`. */
  lemma {:induction false} GenerationOutcomeChain(snapshot: seq<Prompt>, live: seq<Prompt>, key: Option<string>,
                                                  loading: Option<int>, index: int, run: bool, replies: seq<Reply>)
    requires |live| == |snapshot| && |snapshot| - index <= |replies|
    requires HasKey(key) && 0 <= index && index + 1 < |snapshot| && run
    requires replies[0].Body? && replies[0].ending == Finished
    ensures Ended(Generation(snapshot, live, key, loading, index, run, replies), index, |snapshot|, run, replies)
    decreases |snapshot| - index, 0
  {
    var written := live[index := AfterReply(live[index], replies[0])];
    GenerationStep(snapshot, live, key, loading, index, run, replies);
    GenerationOutcome(snapshot, written, key, None, index + 1, run, replies[1..]);
    EndedCarries(Generation(snapshot, live, key, loading, index, run, replies),
                 Generation(snapshot, written, key, None, index + 1, run, replies[1..]),
                 index, |snapshot|, run, replies);
  }

  /** A run that hands over to a run from the next node ends as that run does. */
  lemma EndedCarries(r: Run, rest: Run, index: int, n: int, run: bool, replies: seq<Reply>)
    requires replies != [] && Ended(rest, index + 1, n, run, replies[1..])
    requires r.outcome == rest.outcome && r.loading == rest.loading && |r.requests| == 1 + |rest.requests|
    ensures Ended(r, index, n, run, replies)
  {
    assert replies[|rest.requests|] == replies[1..][|rest.requests| - 1];
  }

  /** Whether `r` holds, for each node of `live`, what the replies from `index` on wrote there. */
  ghost predicate Wrote(live: seq<Prompt>, index: int, replies: seq<Reply>, r: Run)
    requires |r.prompts| == |live|
  {
    && (forall j :: 0 <= j < |live| ==>
          r.prompts[j] == if index <= j < index + |r.requests| && j - index < |replies| then AfterReply(live[j], replies[j - index]) else live[j])
    && (forall j :: 0 <= j < |live| ==> r.prompts[j].(response := live[j].response) == live[j])
  }

  /**
   * The live list after a run: each node the run sent a request for holds
   * what its stream wrote, every other node is as it was, and no field but
   * `response` changes anywhere.
   */
  lemma {:induction false} GenerationWrites(snapshot: seq<Prompt>, live: seq<Prompt>, key: Option<string>,
                                            loading: Option<int>, index: int, run: bool, replies: seq<Reply>)
    requires |live| == |snapshot| && |snapshot| - index <= |replies|
    ensures var r := Generation(snapshot, live, key, loading, index, run, replies);
      && (forall j :: 0 <= j < |live| ==>
            r.prompts[j] == if index <= j < index + |r.requests| then AfterReply(live[j], replies[j - index]) else live[j])
      && (forall j :: 0 <= j < |live| ==> r.prompts[j].(response := live[j].response) == live[j])
    decreases |snapshot| - index, 1
  {
    var r := Generation(snapshot, live, key, loading, index, run, replies);
    if HasKey(key) && 0 <= index < |snapshot| && replies[0].Body? && replies[0].ending == Finished
       && run && index + 1 < |snapshot| {
      GenerationWritesChain(snapshot, live, key, loading, index, run, replies);
    } else if HasKey(key) && 0 <= index < |snapshot| {
      GenerationStop(snapshot, live, key, loading, index, run, replies);
    } else {
      assert r.requests == [] && r.prompts == live;
    }
    assert Wrote(live, index, replies, r);
  }

  /** `GenerationWrites` for a run that goes on past `index`. */
  lemma {:induction false} GenerationWritesChain(snapshot: seq<Prompt>, live: seq<Prompt>, key: Option<string>,
                                                 loading: Option<int>, index: int, run: bool, replies: seq<Reply>)
    requires |live| == |snapshot| && |snapshot| - index <= |replies|
    requires HasKey(key) && 0 <= index && index + 1 < |snapshot| && run
    requires replies[0].Body? && replies[0].ending == Finished
    ensures Wrote(live, index, replies, Generation(snapshot, live, key, loading, index, run, replies))
    decreases |snapshot| - index, 0
  {
    var r := Generation(snapshot, live, key, loading, index, run, replies);
    var written := live[index := AfterReply(live[index], replies[0])];
    var rest := Generation(snapshot, written, key, None, index + 1, run, replies[1..]);
    GenerationStep(snapshot, live, key, loading, index, run, replies);
    GenerationWrites(snapshot, written, key, None, index + 1, run, replies[1..]);
    forall j | 0 <= j < |live|
      ensures r.prompts[j] == if index <= j < index + |r.requests| && j - index < |replies| then AfterReply(live[j], replies[j - index]) else live[j]
      ensures r.prompts[j].(response := live[j].response) == live[j]
    {
      if j == index {
        assert r.prompts[j] == written[j];
      } else if index < j < index + |r.requests| {
        assert replies[1..][j - (index + 1)] == replies[j - index];
      }
    }
  }

  /**
   * A chain run resolves later nodes against the list it started from: here
   * node 0 streams "new", yet the request for node 1, whose text is
   * `[RESPONSE 1]`, carries node 0's response from before the run.
   */
  lemma ChainReadsStartSnapshot(a: Prompt, b: Prompt, key: string, second: Reply)
    requires key != "" && a.response == "old" && b.user == "[RESPONSE 1]"
    ensures var r := Generation([a, b], [a, b], Some(key), None, 0, true, [Body(["new"], Finished), second]);
      && r.prompts[0].response == "new"
      && |r.requests| == 2
      && r.requests[1].user == "old"
  {
    var snapshot := [a, b];
    var replies := [Body(["new"], Finished), second];
    var r := Generation(snapshot, snapshot, Some(key), None, 0, true, replies);
    var written := snapshot[0 := AfterReply(a, replies[0])];
    var rest := Generation(snapshot, written, Some(key), None, 1, true, replies[1..]);
    GenerationStep(snapshot, snapshot, Some(key), None, 0, true, replies);
    GenerationStop(snapshot, written, Some(key), None, 1, true, replies[1..]);
    assert r.prompts[0].response == "new" by {
      assert Concat(["new"]) == "new" by {
        assert ["new"][..0] == [];
      }
      assert r.prompts[0] == written[0];
    }
    assert r.requests[1].user == "old" by {
      GenerationRequests(snapshot, snapshot, Some(key), None, 0, true, replies);
      assert r.requests[1] == RequestFor(snapshot, 1, key);
      Placeholders.ResolveFirstMarker(snapshot);
    }
  }

  /** Every write the stream makes is a prefix of the final response: the visible text only grows. */
  lemma {:induction false} ConcatPrefix(chunks: seq<string>, k: nat)
    requires k <= |chunks|
    ensures Concat(chunks[..k]) <= Concat(chunks)
  {
    if k < |chunks| {
      var front := chunks[..|chunks| - 1];
      ConcatPrefix(front, k);
      assert front[..k] == chunks[..k];
    } else {
      assert chunks[..k] == chunks;
    }
  }

  /** Chunks concatenate in arrival order, however the stream is cut into reads. */
  lemma {:induction false} ConcatSplit(a: seq<string>, b: seq<string>)
    ensures Concat(a + b) == Concat(a) + Concat(b)
  {
    if b != [] {
      var front := b[..|b| - 1];
      ConcatSplit(a, front);
      assert (a + b)[..|a + b| - 1] == a + front;
    } else {
      assert a + b == a;
    }
  }
}
