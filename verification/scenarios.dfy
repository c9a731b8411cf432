/** Worked examples: two utterances handed to the speech scheduler, and two
    local files handed to the local-audio queue, in quick succession. */
module Scenarios {
  import opened Common
  import opened Messages
  import opened SpeakScheduler
  import LocalAudio

  /** Two calls 100 ms apart, each fetch taking 300 ms and each playback
      2000 ms. The second fetch waits out the throttle (it starts 1000 ms after
      the first ended) and completes while the first utterance is still
      playing; the second playback then starts the moment the first ends. */
  lemma FetchOverlapsPlayback(sp: Screenplay, audio: Bytes)
    ensures var c0 := SpeakCall(5000, sp, SynthAnswered(Some("a.wav")), Some(audio), 300, true, 2000, true);
      var c1 := SpeakCall(5100, sp, SynthAnswered(Some("b.wav")), Some(audio), 300, true, 2000, true);
      var t := Timeline([c0, c1]);
      && t[0] == Slot(5000, 5300, Some(audio), Settled(5300, 7300, Some(audio), true))
      && t[1] == Slot(6300, 6600, Some(audio), Settled(7300, 9300, Some(audio), true))
  {
    var c0 := SpeakCall(5000, sp, SynthAnswered(Some("a.wav")), Some(audio), 300, true, 2000, true);
    var c1 := SpeakCall(5100, sp, SynthAnswered(Some("b.wav")), Some(audio), 300, true, 2000, true);
    RunSnoc([], c0);
    RunSnoc([c0], c1);
    assert [] + [c0] == [c0];
    assert [c0] + [c1] == [c0, c1];
  }

  /** The local-audio queue, by contrast, starts both playbacks at once, so
      they overlap; only the completion callbacks are ordered. */
  lemma LocalPlaybacksOverlap(a: Bytes, b: Bytes)
    ensures var e0 := LocalAudio.LocalEntry(0, LocalAudio.Loaded(a), true, true, 2000);
      var e1 := LocalAudio.LocalEntry(100, LocalAudio.Loaded(b), true, true, 500);
      var q := LocalAudio.QueueLocalAudio([e0, e1]);
      && q[0].start == 0 && q[0].settle == 2000 && q[0].completeAt == Some(2000)
      && q[1].start == 100 && q[1].settle == 600 && q[1].completeAt == Some(2000)
  {
    var e0 := LocalAudio.LocalEntry(0, LocalAudio.Loaded(a), true, true, 2000);
    var e1 := LocalAudio.LocalEntry(100, LocalAudio.Loaded(b), true, true, 500);
    LocalAudio.RunQueueSnoc([], e0);
    LocalAudio.RunQueueSnoc([e0], e1);
    assert [] + [e0] == [e0];
    assert [e0] + [e1] == [e0, e1];
  }
}
