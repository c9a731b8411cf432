/** `playLocalAudio` and `queueLocalAudio` of
    `src/features/messages/speakCharacter.ts`: playing a bundled audio file
    instead of a synthesised one, and the queue that orders the completion
    callbacks of such playbacks. Callbacks are assumed not to throw. */
module LocalAudio {
  import opened Common

  /** How loading the file went: `fetch` rejected (or reading the body did),
      the response was not ok, or the bytes arrived. */
  datatype LoadOutcome = LoadRejected | LoadNotOk(statusText: string) | Loaded(bytes: Bytes)

  /** The observable effects of one playback, in order. */
  datatype Effect = StartCalled | Spoke(audio: Bytes) | CompleteCalled

  /** The effects of a playback, and whether its promise fulfils (else it rejects). */
  datatype LocalPlay = LocalPlay(effects: seq<Effect>, fulfilled: bool)

  /** `playLocalAudio`: `onStart` only after a successful load, `speak` only
      when the model is loaded, and `onComplete` on every path, as the last
      effect; a failed load or a rejected `speak` makes the promise reject.
      `hasOnStart`/`hasOnComplete` say whether the optional callbacks were given. */
  function PlayLocalAudio(load: LoadOutcome, modelLoaded: bool, speakResolves: bool,
                          hasOnStart: bool, hasOnComplete: bool): (r: LocalPlay)
    ensures r.fulfilled <==> load.Loaded? && (!modelLoaded || speakResolves)
    ensures StartCalled in r.effects <==> load.Loaded? && hasOnStart
    ensures StartCalled in r.effects ==> r.effects[0] == StartCalled
    ensures forall b :: Spoke(b) in r.effects <==> load == Loaded(b) && modelLoaded
    ensures hasOnComplete ==>
      && |r.effects| > 0
      && r.effects[|r.effects| - 1] == CompleteCalled
      && CompleteCalled !in r.effects[..|r.effects| - 1]
    ensures !hasOnComplete ==> CompleteCalled !in r.effects
  {
    var complete := if hasOnComplete then [CompleteCalled] else [];
    match load
    case Loaded(bytes) =>
      var started := if hasOnStart then [StartCalled] else [];
      if modelLoaded then
        var effects := started + [Spoke(bytes)] + complete;
        assert effects[..|effects| - |complete|] == started + [Spoke(bytes)];
        LocalPlay(effects, speakResolves)
      else
        var effects := started + complete;
        assert effects[..|effects| - |complete|] == started;
        LocalPlay(effects, true)
    case _ =>
      assert complete[..|complete| - |complete|] == [];
      LocalPlay(complete, false)
  }

  /** One call of the queue: when it is made, how the file load and `speak`
      go, and how long the playback takes until it settles. */
  datatype LocalEntry = LocalEntry(at: nat, load: LoadOutcome, modelLoaded: bool,
                                   speakResolves: bool, duration: nat)

  /** The fate of one queued call: when its playback starts and settles, what
      the playback does, and when the caller's `onComplete` fires, if ever. */
  datatype Queued = Queued(start: nat, settle: nat, play: LocalPlay, completeAt: Option<nat>)

  /** The queue's `prevPlayPromise`: when it resolved, and whether it rejected. */
  datatype Chain = Chain(done: nat, rejected: bool)

  /** One call: the playback starts at once, with the caller's `onStart` but no
      `onComplete`; the caller's `onComplete` waits for this playback and for
      the previous chain link, and never fires once a link has rejected. */
  function Enqueue(ch: Chain, e: LocalEntry): (r: (Queued, Chain))
    // the playback starts at the call with the caller's `onStart` only
    ensures r.0.start == e.at && r.0.settle == e.at + e.duration
    ensures r.0.play == PlayLocalAudio(e.load, e.modelLoaded, e.speakResolves, true, false)
    // the chain rejects once any playback has rejected, and then stays rejected
    ensures r.1.rejected <==> ch.rejected || !r.0.play.fulfilled
    // the completion fires iff the chain still fulfils, once this playback and
    // the previous link have both settled
    ensures r.0.completeAt.Some? <==> !r.1.rejected
    ensures r.0.completeAt.Some? ==> r.0.completeAt.value == r.1.done == Max(r.0.settle, ch.done)
  {
    var play := PlayLocalAudio(e.load, e.modelLoaded, e.speakResolves, true, false);
    var settle := e.at + e.duration;
    if ch.rejected || !play.fulfilled then
      (Queued(e.at, settle, play, None), Chain(ch.done, true))
    else
      var t := Max(settle, ch.done);
      (Queued(e.at, settle, play, Some(t)), Chain(t, false))
  }

  datatype QueueRun = QueueRun(queued: seq<Queued>, chain: Chain)

  function RunQueue(entries: seq<LocalEntry>): (r: QueueRun)
    ensures |r.queued| == |entries|
  {
    if |entries| == 0 then QueueRun([], Chain(0, false))
    else
      var prev := RunQueue(entries[..|entries| - 1]);
      var next := Enqueue(prev.chain, entries[|entries| - 1]);
      QueueRun(prev.queued + [next.0], next.1)
  }

  /** The fate of every call of the queue, in call order. */
  function QueueLocalAudio(entries: seq<LocalEntry>): (q: seq<Queued>)
    ensures |q| == |entries|
  {
    RunQueue(entries).queued
  }

  /** Extending the calls extends the queue: earlier entries never change. */
  lemma RunQueueSnoc(entries: seq<LocalEntry>, e: LocalEntry)
    ensures RunQueue(entries + [e]).queued == RunQueue(entries).queued + [Enqueue(RunQueue(entries).chain, e).0]
    ensures RunQueue(entries + [e]).chain == Enqueue(RunQueue(entries).chain, e).1
  {
    assert (entries + [e])[..|entries|] == entries;
  }

  ghost predicate ChainSummarises(r: QueueRun)
  {
    && (r.chain.rejected <==> exists k :: 0 <= k < |r.queued| && !r.queued[k].play.fulfilled)
    && (!r.chain.rejected ==> forall k :: 0 <= k < |r.queued| ==>
          && r.queued[k].completeAt.Some?
          && r.queued[k].completeAt.value <= r.chain.done
          && r.queued[k].settle <= r.chain.done)
  }

  lemma {:induction false} ChainInvariant(entries: seq<LocalEntry>)
    ensures ChainSummarises(RunQueue(entries))
  {
    if |entries| > 0 {
      var init := entries[..|entries| - 1];
      var e := entries[|entries| - 1];
      assert entries == init + [e];
      ChainInvariant(init);
      RunQueueSnoc(init, e);
      var prev := RunQueue(init);
      var q := RunQueue(entries).queued;
      var n := |init|;
      forall i | 0 <= i < n ensures q[i] == prev.queued[i] {}
      if !q[n].play.fulfilled {
        assert RunQueue(entries).chain.rejected;
      }
      if prev.chain.rejected {
        var k :| 0 <= k < n && !prev.queued[k].play.fulfilled;
        assert !q[k].play.fulfilled;
      }
    }
  }

  /** Each playback starts at its own call, not after the previous playback,
      so playbacks may overlap; it settles after its duration, and it is
      never given an `onComplete` of its own. */
  lemma {:induction false} QueuePlaysAtOnce(entries: seq<LocalEntry>)
    ensures var q := QueueLocalAudio(entries);
      forall i :: 0 <= i < |q| ==>
        && q[i].start == entries[i].at
        && q[i].settle == entries[i].at + entries[i].duration
        && q[i].play == PlayLocalAudio(entries[i].load, entries[i].modelLoaded, entries[i].speakResolves, true, false)
        && CompleteCalled !in q[i].play.effects
  {
    if |entries| > 0 {
      var init := entries[..|entries| - 1];
      var e := entries[|entries| - 1];
      assert entries == init + [e];
      QueuePlaysAtOnce(init);
      RunQueueSnoc(init, e);
      var prev := QueueLocalAudio(init);
      var q := QueueLocalAudio(entries);
      forall i | 0 <= i < |init| ensures q[i] == prev[i] && entries[i] == init[i] {}
    }
  }

  /** Every playback up to and including call `i` fulfilled. */
  ghost predicate FulfilledUpTo(q: seq<Queued>, i: int)
    requires i < |q|
  {
    forall k :: 0 <= k <= i ==> q[k].play.fulfilled
  }

  /** The caller's `onComplete` of call `i` fires exactly when every playback
      up to and including `i` fulfilled; one rejection silences all later ones. */
  lemma {:induction false} QueueCompletesOnlyAfterSuccesses(entries: seq<LocalEntry>)
    ensures var q := QueueLocalAudio(entries);
      forall i :: 0 <= i < |q| ==> (q[i].completeAt.Some? <==> FulfilledUpTo(q, i))
  {
    if |entries| > 0 {
      var init := entries[..|entries| - 1];
      var e := entries[|entries| - 1];
      assert entries == init + [e];
      QueueCompletesOnlyAfterSuccesses(init);
      ChainInvariant(init);
      RunQueueSnoc(init, e);
      var prev := QueueLocalAudio(init);
      var q := QueueLocalAudio(entries);
      var n := |init|;
      forall i | 0 <= i < n ensures q[i] == prev[i] {}
      forall i | 0 <= i < n ensures FulfilledUpTo(q, i) == FulfilledUpTo(prev, i) {}
      if RunQueue(init).chain.rejected {
        var k :| 0 <= k < n && !prev[k].play.fulfilled;
        assert !q[k].play.fulfilled;
        assert !FulfilledUpTo(q, n);
      } else {
        assert FulfilledUpTo(q, n) == q[n].play.fulfilled;
      }
    }
  }

  /** A completion fires only after every playback up to it has settled, and
      completions fire in call order. */
  lemma {:induction false} QueueCompletionsInOrder(entries: seq<LocalEntry>)
    ensures var q := QueueLocalAudio(entries);
      && (forall k, i :: 0 <= k <= i < |q| && q[i].completeAt.Some? ==>
            q[i].completeAt.value >= q[k].settle)
      && (forall k, i :: 0 <= k < i < |q| && q[k].completeAt.Some? && q[i].completeAt.Some? ==>
            q[k].completeAt.value <= q[i].completeAt.value)
  {
    if |entries| > 0 {
      var init := entries[..|entries| - 1];
      var e := entries[|entries| - 1];
      assert entries == init + [e];
      QueueCompletionsInOrder(init);
      ChainInvariant(init);
      RunQueueSnoc(init, e);
      var prev := QueueLocalAudio(init);
      var q := QueueLocalAudio(entries);
      var n := |init|;
      forall i | 0 <= i < n ensures q[i] == prev[i] {}
      if q[n].completeAt.Some? {
        assert !RunQueue(init).chain.rejected;
        forall k | 0 <= k < n ensures q[n].completeAt.value >= q[k].settle
          && (q[k].completeAt.Some? ==> q[k].completeAt.value <= q[n].completeAt.value)
        {
          assert prev[k].settle <= RunQueue(init).chain.done;
        }
      }
    }
  }
}
