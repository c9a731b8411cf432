/** `createSpeakCharacter` and `fetchAudio` of
    `src/features/messages/speakCharacter.ts`, as a timeline.

    The source chains two promise pipelines (one for fetches, one for
    playback) and keeps a throttle timestamp. Here the clock is a natural
    number of milliseconds. Each call to the speaker comes with the oracle
    answers for its fetch and the durations things take, and `Timeline`
    computes when every fetch and every playback starts and ends. A `wait(d)`
    lasts exactly `d`. */
module SpeakScheduler {
  import opened Common
  import opened Messages

  /** Minimum spacing between the end of one fetch and the start of the next. */
  const ThrottleMs: nat := 1000

  // ---------------------------------------------------------------------------
  // One fetch
  // ---------------------------------------------------------------------------

  /** What the speech server's reply turned out to be: the request or its JSON
      decoding failed, or the reply carried an `audio` field that may be null. */
  datatype SynthOutcome = SynthFailed | SynthAnswered(audio: Option<string>)

  /** Why `fetchAudio` threw. */
  datatype FetchError = SynthesisError | NoAudio | IntroUnavailable

  /** `fetchAudio`: it throws when synthesis fails or yields no audio URL;
      otherwise it loads the bundled `intro.mp3` (`intro` is that load, `None`
      when it rejects) and returns its bytes, whatever URL came back. */
  function FetchAudio(synth: SynthOutcome, intro: Option<Bytes>): (r: Result<Bytes, FetchError>)
    ensures r.Success? <==> synth.SynthAnswered? && synth.audio.Some? && intro.Some?
    ensures r.Success? ==> r.value == intro.value
    ensures synth.SynthAnswered? && synth.audio.None? ==> r == Failure(NoAudio)
  {
    match synth
    case SynthFailed => Failure(SynthesisError)
    case SynthAnswered(url) =>
      if url.None? then Failure(NoAudio)
      else match intro
        case None => Failure(IntroUnavailable)
        case Some(bytes) => Success(bytes)
  }

  /** The audio URL the server returns has no influence on the bytes. */
  lemma FetchAudioIgnoresUrl(u: string, v: string, intro: Option<Bytes>)
    ensures FetchAudio(SynthAnswered(Some(u)), intro) == FetchAudio(SynthAnswered(Some(v)), intro)
  {
  }

  /** `fetchAudio(...).catch(() => null)`: a failing fetch resolves to null, so
      the fetch pipeline never rejects. */
  function FetchOrNull(synth: SynthOutcome, intro: Option<Bytes>): (r: Option<Bytes>)
    ensures r.Some? <==> FetchAudio(synth, intro).Success?
    ensures r.Some? ==> r == intro
  {
    match FetchAudio(synth, intro)
    case Success(bytes) => Some(bytes)
    case Failure(_) => None
  }

  // ---------------------------------------------------------------------------
  // The two pipelines
  // ---------------------------------------------------------------------------

  /** One call of the speaker: when it was made, the oracle answers for its
      fetch, how long the fetch takes, whether `viewer.model` is loaded when the
      slot plays, how long `speak` takes, and whether `speak` resolves rather
      than rejects. */
  datatype SpeakCall = SpeakCall(
    at: nat,
    screenplay: Screenplay,
    synth: SynthOutcome,
    intro: Option<Bytes>,
    fetchTime: nat,
    modelLoaded: bool,
    playTime: nat,
    speakResolves: bool)

  /** What happens in a slot of the playback pipeline. `Blocked`: an earlier
      `speak` rejected, so the join rejects and neither `onStart` nor
      `onComplete` fires. `Settled`: `onStart` fires at `start`, the viewer is
      handed `spoke` (if any), and the slot settles at `end`; `onComplete`
      fires at `end` exactly when `fulfilled`. */
  datatype Playback =
    | Blocked
    | Settled(start: nat, end: nat, spoke: Option<Bytes>, fulfilled: bool)

  /** The fate of one call: its fetch interval, the fetched audio, and its playback. */
  datatype Slot = Slot(fetchStart: nat, fetchEnd: nat, audio: Option<Bytes>, playback: Playback)

  /** The closure's state: `lastTime`, when `prevFetchPromise` resolved, when
      `prevSpeakPromise` resolved, and whether it rejected. */
  datatype Pipes = Pipes(lastTime: nat, fetchDone: nat, playDone: nat, poisoned: bool)

  /** `lastTime = 0` and two already-resolved promises. */
  const Idle: Pipes := Pipes(0, 0, 0, false)

  /** A slot whose `speak` rejected: it settled without fulfilling. */
  predicate Rejects(s: Slot)
  {
    s.playback.Settled? && !s.playback.fulfilled
  }

  /** Handle one call: the fetch runs once the previous fetch has settled,
      after waiting out the throttle; the playback runs once its own fetch and
      the previous playback have both settled. */
  function Advance(p: Pipes, c: SpeakCall): (r: (Slot, Pipes))
    // the fetch waits for the previous fetch and for the throttle, and no longer
    ensures r.0.fetchStart == Max(Max(c.at, p.fetchDone), p.lastTime + ThrottleMs)
    ensures r.0.fetchEnd == r.0.fetchStart + c.fetchTime
    ensures r.0.audio == FetchOrNull(c.synth, c.intro)
    // `lastTime` is stamped when the fetch ends, and the fetch chain resolves then
    ensures r.1.lastTime == r.0.fetchEnd && r.1.fetchDone == r.0.fetchEnd
    // a rejected chain blocks the playback and stays rejected
    ensures p.poisoned ==> r.0.playback.Blocked? && r.1.poisoned && r.1.playDone == p.playDone
    // otherwise the playback joins its fetch and the previous playback
    ensures !p.poisoned ==>
      && r.0.playback.Settled?
      && r.0.playback.start == Max(r.0.fetchEnd, p.playDone)
      && r.1.playDone == r.0.playback.end
      && (r.1.poisoned <==> !r.0.playback.fulfilled)
  {
    var now := Max(c.at, p.fetchDone);
    var start := if now - p.lastTime < ThrottleMs then p.lastTime + ThrottleMs else now;
    var end := start + c.fetchTime;
    var audio := FetchOrNull(c.synth, c.intro);
    if p.poisoned then
      (Slot(start, end, audio, Blocked), Pipes(end, end, p.playDone, true))
    else
      var playStart := Max(end, p.playDone);
      var playback :=
        if audio.None? || !c.modelLoaded then Settled(playStart, playStart, None, true)
        else Settled(playStart, playStart + c.playTime, audio, c.speakResolves);
      (Slot(start, end, audio, playback), Pipes(end, end, playback.end, !playback.fulfilled))
  }

  /** The slots of a run of calls, with the closure state they leave behind. */
  datatype Schedule = Schedule(slots: seq<Slot>, pipes: Pipes)

  function Run(calls: seq<SpeakCall>): (r: Schedule)
    ensures |r.slots| == |calls|
  {
    if |calls| == 0 then Schedule([], Idle)
    else
      var prev := Run(calls[..|calls| - 1]);
      var next := Advance(prev.pipes, calls[|calls| - 1]);
      Schedule(prev.slots + [next.0], next.1)
  }

  /** The fate of every call, in call order. */
  function Timeline(calls: seq<SpeakCall>): (slots: seq<Slot>)
    ensures |slots| == |calls|
  {
    Run(calls).slots
  }

  /** Extending the calls extends the timeline: earlier slots never change. */
  lemma RunSnoc(calls: seq<SpeakCall>, c: SpeakCall)
    ensures Run(calls + [c]).slots == Run(calls).slots + [Advance(Run(calls).pipes, c).0]
    ensures Run(calls + [c]).pipes == Advance(Run(calls).pipes, c).1
  {
    assert (calls + [c])[..|calls|] == calls;
  }

  /** An earlier slot is unaffected by a later call. */
  lemma TimelinePrefix(calls: seq<SpeakCall>, i: nat)
    requires i < |calls| - 1
    ensures Timeline(calls)[i] == Timeline(calls[..|calls| - 1])[i]
  {
    TimelineSnoc(calls);
  }

  /** The last call's slot comes from the state the earlier calls left, and
      the earlier slots are those of the earlier calls alone. */
  lemma TimelineSnoc(calls: seq<SpeakCall>)
    requires |calls| > 0
    ensures var init := calls[..|calls| - 1];
      && (forall i :: 0 <= i < |init| ==> Timeline(calls)[i] == Timeline(init)[i] && calls[i] == init[i])
      && Timeline(calls)[|init|] == Advance(Run(init).pipes, calls[|init|]).0
      && Run(calls).pipes == Advance(Run(init).pipes, calls[|init|]).1
  {
  }

  // ---------------------------------------------------------------------------
  // The closure state summarises the slots so far
  // ---------------------------------------------------------------------------

  /** The closure state agrees with the slots so far. */
  ghost predicate Summarises(r: Schedule)
  {
    ClockSummarised(r) && PoisonSummarised(r)
  }

  /** `lastTime` and the fetch chain both stand at the end of the last fetch. */
  ghost predicate ClockSummarised(r: Schedule)
  {
    && (|r.slots| == 0 ==> r.pipes == Idle)
    && (|r.slots| > 0 ==> r.pipes.lastTime == r.slots[|r.slots| - 1].fetchEnd)
    && r.pipes.fetchDone == r.pipes.lastTime
    && (forall i :: 0 <= i < |r.slots| ==> r.slots[i].fetchEnd <= r.pipes.lastTime)
  }

  /** The playback chain has rejected exactly when some slot rejected; until
      then every slot has settled by the time the chain resolved. */
  ghost predicate PoisonSummarised(r: Schedule)
  {
    && (r.pipes.poisoned <==> exists i :: 0 <= i < |r.slots| && Rejects(r.slots[i]))
    && (!r.pipes.poisoned ==> forall i :: 0 <= i < |r.slots| ==>
          r.slots[i].playback.Settled? && r.slots[i].playback.end <= r.pipes.playDone)
  }

  /** What one call does to the closure state, given that the throttle
      timestamp and the fetch chain agree. */
  lemma AdvanceStep(p: Pipes, c: SpeakCall)
    requires p.fetchDone == p.lastTime
    ensures var (s, q) := Advance(p, c);
      && q.lastTime == s.fetchEnd && q.fetchDone == q.lastTime
      && s.fetchStart == Max(c.at, p.lastTime + ThrottleMs)
      && s.fetchEnd >= p.lastTime
      && (q.poisoned <==> p.poisoned || Rejects(s))
      && (!q.poisoned ==> s.playback.Settled? && s.playback.end <= q.playDone && p.playDone <= q.playDone)
  {
  }

  lemma RunSummarises(calls: seq<SpeakCall>)
    ensures Summarises(Run(calls))
  {
    RunClock(calls);
    RunPoison(calls);
  }

  /** While no `speak` has rejected, `prevSpeakPromise` resolves exactly when
      the last playback settles. */
  lemma RunPlayDoneIsLast(calls: seq<SpeakCall>)
    ensures |calls| > 0 && !Run(calls).pipes.poisoned ==>
      var last := Timeline(calls)[|calls| - 1];
      last.playback.Settled? && Run(calls).pipes.playDone == last.playback.end
  {
    if |calls| > 0 {
      TimelineSnoc(calls);
    }
  }

  lemma {:induction false} RunClock(calls: seq<SpeakCall>)
    ensures ClockSummarised(Run(calls))
  {
    if |calls| > 0 {
      var init := calls[..|calls| - 1];
      RunClock(init);
      TimelineSnoc(calls);
      AdvanceStep(Run(init).pipes, calls[|init|]);
    }
  }

  lemma {:induction false} RunPoison(calls: seq<SpeakCall>)
    ensures PoisonSummarised(Run(calls))
  {
    if |calls| > 0 {
      var init := calls[..|calls| - 1];
      RunPoison(init);
      RunClock(init);
      TimelineSnoc(calls);
      var prev := Run(init);
      AdvanceStep(prev.pipes, calls[|init|]);
      if prev.pipes.poisoned {
        var k :| 0 <= k < |init| && Rejects(prev.slots[k]);
        assert Rejects(Run(calls).slots[k]);
      }
    }
  }

  // ---------------------------------------------------------------------------
  // The fetch pipeline
  // ---------------------------------------------------------------------------

  /** A fetch starts no earlier than its call and lasts its fetch time. */
  lemma {:induction false} FetchFollowsCall(calls: seq<SpeakCall>)
    ensures var slots := Timeline(calls);
      forall i :: 0 <= i < |slots| ==>
        && slots[i].fetchStart >= calls[i].at
        && slots[i].fetchEnd == slots[i].fetchStart + calls[i].fetchTime
  {
    if |calls| > 0 {
      var init := calls[..|calls| - 1];
      var c := calls[|calls| - 1];
      FetchFollowsCall(init);
      TimelineSnoc(calls);
      var prev := Timeline(init);
      var slots := Timeline(calls);
    }
  }

  /** Fetches run one at a time in call order, and any two are at least
      `ThrottleMs` apart: a fetch starts `ThrottleMs` or more after every
      earlier fetch has ended. */
  lemma {:induction false} FetchesSpaced(calls: seq<SpeakCall>)
    ensures var slots := Timeline(calls);
      forall i, j :: 0 <= i < j < |slots| ==> slots[j].fetchStart >= slots[i].fetchEnd + ThrottleMs
  {
    if |calls| > 0 {
      var init := calls[..|calls| - 1];
      var c := calls[|calls| - 1];
      FetchesSpaced(init);
      RunSummarises(init);
      TimelineSnoc(calls);
      var prev := Timeline(init);
      var slots := Timeline(calls);
      assert slots[|init|].fetchStart >= Run(init).pipes.lastTime + ThrottleMs;
      forall i, j | 0 <= i < j < |slots|
        ensures slots[j].fetchStart >= slots[i].fetchEnd + ThrottleMs
      {
        if j < |init| {
          assert prev[j].fetchStart >= prev[i].fetchEnd + ThrottleMs;
        } else {
          assert prev[i].fetchEnd <= Run(init).pipes.lastTime;
        }
      }
    }
  }

  /** When the fetch before slot `i` ended: time 0 (the initial `lastTime`) for the first slot. */
  function PrevFetchEnd(slots: seq<Slot>, i: int): (t: nat)
    requires 0 <= i <= |slots|
  {
    if i == 0 then 0 else slots[i - 1].fetchEnd
  }

  /** No fetch waits longer than the rules demand: it starts at its call, or
      exactly `ThrottleMs` after the previous fetch ended, whichever is later. */
  lemma {:induction false} FetchStartsAsEarlyAsAllowed(calls: seq<SpeakCall>)
    ensures var slots := Timeline(calls);
      forall i :: 0 <= i < |slots| ==>
        slots[i].fetchStart == Max(calls[i].at, PrevFetchEnd(slots, i) + ThrottleMs)
  {
    forall i | 0 <= i < |calls|
      ensures Timeline(calls)[i].fetchStart == Max(calls[i].at, PrevFetchEnd(Timeline(calls), i) + ThrottleMs)
    {
      FetchStartAt(calls, i);
    }
  }

  /** `FetchStartsAsEarlyAsAllowed` for one slot. */
  lemma {:induction false} FetchStartAt(calls: seq<SpeakCall>, i: nat)
    requires i < |calls|
    ensures Timeline(calls)[i].fetchStart == Max(calls[i].at, PrevFetchEnd(Timeline(calls), i) + ThrottleMs)
    decreases |calls|
  {
    var init := calls[..|calls| - 1];
    if i < |init| {
      FetchStartAt(init, i);
      TimelinePrefix(calls, i);
      if i > 0 {
        TimelinePrefix(calls, i - 1);
      }
    } else {
      RunSummarises(init);
      TimelineSnoc(calls);
      AdvanceStep(Run(init).pipes, calls[i]);
      if i > 0 {
        TimelinePrefix(calls, i - 1);
      }
    }
  }

  /** The first fetch starts at its call when the clock has passed `ThrottleMs`
      (as an epoch clock always has): the initial `lastTime = 0` imposes no wait. */
  lemma FirstFetchDoesNotWait(calls: seq<SpeakCall>)
    requires |calls| > 0 && calls[0].at >= ThrottleMs
    ensures Timeline(calls)[0].fetchStart == calls[0].at
  {
    FetchStartsAsEarlyAsAllowed(calls);
    var slots := Timeline(calls);
    assert slots[0].fetchStart == Max(calls[0].at, PrevFetchEnd(slots, 0) + ThrottleMs);
  }

  // ---------------------------------------------------------------------------
  // The playback pipeline
  // ---------------------------------------------------------------------------

  /** Playbacks in call order, one at a time: a slot plays only after its own
      fetch has settled, and after every earlier slot's playback has settled. */
  ghost predicate PlaybackSerialised(slots: seq<Slot>)
  {
    && (forall i :: 0 <= i < |slots| && slots[i].playback.Settled? ==>
          slots[i].fetchEnd <= slots[i].playback.start <= slots[i].playback.end)
    && (forall i, j :: 0 <= i < j < |slots| && slots[i].playback.Settled? && slots[j].playback.Settled? ==>
          slots[i].playback.end <= slots[j].playback.start)
  }

  lemma PlaybackPipeline(calls: seq<SpeakCall>)
    ensures PlaybackSerialised(Timeline(calls))
  {
    var slots := Timeline(calls);
    forall i | 0 <= i < |slots| && slots[i].playback.Settled?
      ensures slots[i].fetchEnd <= slots[i].playback.start <= slots[i].playback.end
    {
      PlaybackAfterFetch(calls, i);
    }
    forall i, j | 0 <= i < j < |slots| && slots[i].playback.Settled? && slots[j].playback.Settled?
      ensures slots[i].playback.end <= slots[j].playback.start
    {
      PlaybackOrdered(calls, i, j);
    }
  }

  /** A playback starts after its own fetch ended, and does not end before it starts. */
  lemma {:induction false} PlaybackAfterFetch(calls: seq<SpeakCall>, i: nat)
    requires i < |calls| && Timeline(calls)[i].playback.Settled?
    ensures var s := Timeline(calls)[i]; s.fetchEnd <= s.playback.start <= s.playback.end
    decreases |calls|
  {
    var init := calls[..|calls| - 1];
    if i < |init| {
      TimelinePrefix(calls, i);
      PlaybackAfterFetch(init, i);
    } else {
      TimelineSnoc(calls);
    }
  }

  /** Slot `i`'s playback ends before a later slot `j`'s starts. */
  lemma {:induction false} PlaybackOrdered(calls: seq<SpeakCall>, i: nat, j: nat)
    requires i < j < |calls|
    requires Timeline(calls)[i].playback.Settled? && Timeline(calls)[j].playback.Settled?
    ensures Timeline(calls)[i].playback.end <= Timeline(calls)[j].playback.start
    decreases |calls|
  {
    var init := calls[..|calls| - 1];
    TimelinePrefix(calls, i);
    if j < |init| {
      TimelinePrefix(calls, j);
      PlaybackOrdered(init, i, j);
    } else {
      RunSummarises(init);
      TimelineSnoc(calls);
      AdvanceStep(Run(init).pipes, calls[j]);
    }
  }

  /** A rejected `speak` stops the playback pipeline for good: every later slot
      is blocked, and a slot is blocked only because an earlier one rejected.
      Fetches carry on regardless. */
  ghost predicate RejectionBlocks(slots: seq<Slot>)
  {
    && (forall i, j :: 0 <= i < j < |slots| && Rejects(slots[i]) ==> slots[j].playback.Blocked?)
    && (forall j :: 0 <= j < |slots| && slots[j].playback.Blocked? ==>
          exists i :: 0 <= i < j && Rejects(slots[i]))
  }

  lemma RejectionStopsPlayback(calls: seq<SpeakCall>)
    ensures RejectionBlocks(Timeline(calls))
  {
    var slots := Timeline(calls);
    forall i, j | 0 <= i < j < |slots| && Rejects(slots[i]) ensures slots[j].playback.Blocked? {
      BlockedAfterRejection(calls, i, j);
    }
    forall j | 0 <= j < |slots| && slots[j].playback.Blocked?
      ensures exists i :: 0 <= i < j && Rejects(slots[i])
    {
      var i := BlockedCause(calls, j);
    }
  }

  /** A slot after a rejecting one is blocked. */
  lemma {:induction false} BlockedAfterRejection(calls: seq<SpeakCall>, i: nat, j: nat)
    requires i < j < |calls| && Rejects(Timeline(calls)[i])
    ensures Timeline(calls)[j].playback.Blocked?
    decreases |calls|
  {
    var init := calls[..|calls| - 1];
    TimelinePrefix(calls, i);
    if j < |init| {
      TimelinePrefix(calls, j);
      BlockedAfterRejection(init, i, j);
    } else {
      RunSummarises(init);
      TimelineSnoc(calls);
      AdvanceStep(Run(init).pipes, calls[j]);
    }
  }

  /** A blocked slot has a rejecting slot before it, returned as `i`. */
  lemma {:induction false} BlockedCause(calls: seq<SpeakCall>, j: nat) returns (i: nat)
    requires j < |calls| && Timeline(calls)[j].playback.Blocked?
    ensures i < j && Rejects(Timeline(calls)[i])
    decreases |calls|
  {
    var init := calls[..|calls| - 1];
    if j < |init| {
      TimelinePrefix(calls, j);
      i := BlockedCause(init, j);
      TimelinePrefix(calls, i);
    } else {
      RunSummarises(init);
      TimelineSnoc(calls);
      AdvanceStep(Run(init).pipes, calls[j]);
      var k :| 0 <= k < |init| && Rejects(Run(init).slots[k]);
      TimelinePrefix(calls, k);
      i := k;
    }
  }

  /** Slot `s` plays call `c`'s own fetch: the audio is the fetch result with
      failures turned into null. Unless blocked, the viewer speaks exactly when
      there is audio and a loaded model, taking `playTime`, and the slot
      settles as `speak` does; otherwise the slot settles at once and fulfils,
      so a failed fetch still fires `onStart` and `onComplete`. */
  predicate PlaysOwnAudio(c: SpeakCall, s: Slot)
  {
    && s.audio == FetchOrNull(c.synth, c.intro)
    && (s.playback.Settled? ==>
          var p := s.playback;
          && (p.spoke.Some? <==> s.audio.Some? && c.modelLoaded)
          && (p.spoke.Some? ==>
                p.spoke == s.audio && p.end == p.start + c.playTime && p.fulfilled == c.speakResolves)
          && (p.spoke.None? ==> p.end == p.start && p.fulfilled))
  }

  ghost predicate SlotsPlayOwnAudio(calls: seq<SpeakCall>, slots: seq<Slot>)
    requires |slots| == |calls|
  {
    forall i :: 0 <= i < |slots| ==> PlaysOwnAudio(calls[i], slots[i])
  }

  lemma SlotAudio(calls: seq<SpeakCall>)
    ensures SlotsPlayOwnAudio(calls, Timeline(calls))
  {
    forall i | 0 <= i < |calls| ensures PlaysOwnAudio(calls[i], Timeline(calls)[i]) {
      SlotAudioAt(calls, i);
    }
  }

  /** `SlotAudio` for one slot. */
  lemma {:induction false} SlotAudioAt(calls: seq<SpeakCall>, i: nat)
    requires i < |calls|
    ensures PlaysOwnAudio(calls[i], Timeline(calls)[i])
    decreases |calls|
  {
    var init := calls[..|calls| - 1];
    if i < |init| {
      TimelinePrefix(calls, i);
      SlotAudioAt(init, i);
    } else {
      TimelineSnoc(calls);
    }
  }
}
