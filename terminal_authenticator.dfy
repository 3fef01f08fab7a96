/** The terminal version's `KeystrokeAuthenticator`: enrollment and
    authentication capture their own samples from key events. */
module TerminalAuthenticator {
  import Stats
  import opened Features
  import Scoring
  import Aggregation
  import opened Profiles
  import KeyCapture

  /** The input behind one prompt: when the prompt was shown and the keys read after it. */
  datatype Typing = Typing(start: real, events: seq<KeyCapture.KeyEvent>)

  /** `capture_keystroke_timing` on one prompt's input. */
  function CaptureOf(platform: KeyCapture.Platform, t: Typing): KeyCapture.Capture {
    KeyCapture.CaptureTiming(platform, t.start, t.events)
  }

  /** How the sample loop of `enroll_user` ends: Ctrl+C, a password that differs
      from the first sample's, or every sample collected. */
  datatype Collected = Aborted | Mismatch | Samples(password: string, allTimings: seq<seq<real>>)

  /** The loop after the first prompt. */
  function First(c: KeyCapture.Capture): Collected {
    if c.Interrupted? then Aborted else Samples(c.password, [c.timings])
  }

  /** The loop after one more prompt: Ctrl+C and a mismatch stop it for good. */
  function Next(r: Collected, c: KeyCapture.Capture): Collected {
    match r
    case Aborted => Aborted
    case Mismatch => Mismatch
    case Samples(password, allTimings) =>
      if c.Interrupted? then Aborted
      else if c.password != password then Mismatch
      else Samples(password, allTimings + [c.timings])
  }

  /** The sample loop over the prompts `typings`, one sample per prompt. */
  function Collect(platform: KeyCapture.Platform, typings: seq<Typing>): Collected
    requires |typings| > 0
    decreases |typings|
  {
    var n := |typings| - 1;
    var c := CaptureOf(platform, typings[n]);
    if n == 0 then First(c) else Next(Collect(platform, typings[..n]), c)
  }

  lemma CollectFirst(platform: KeyCapture.Platform, typings: seq<Typing>)
    requires 0 < |typings|
    ensures Collect(platform, typings[..1]) == First(CaptureOf(platform, typings[0]))
  {
    assert typings[..1] == [typings[0]];
  }

  lemma CollectStep(platform: KeyCapture.Platform, typings: seq<Typing>, i: int)
    requires 0 < i < |typings|
    ensures Collect(platform, typings[..i + 1]) == Next(Collect(platform, typings[..i]), CaptureOf(platform, typings[i]))
  {
    assert typings[..i + 1][..i] == typings[..i];
  }

  /** The samples are collected exactly when no prompt is interrupted and every
      password equals the first one. */
  lemma {:induction false} CollectConsistent(platform: KeyCapture.Platform, typings: seq<Typing>)
    requires |typings| > 0
    ensures Collect(platform, typings).Samples? <==>
      && CaptureOf(platform, typings[0]).Captured?
      && forall j :: 0 <= j < |typings| ==>
        CaptureOf(platform, typings[j]).Captured?
        && CaptureOf(platform, typings[j]).password == CaptureOf(platform, typings[0]).password
    decreases |typings|
  {
    var n := |typings| - 1;
    if n > 0 {
      var init := typings[..n];
      CollectConsistent(platform, init);
      assert forall j :: 0 <= j < n ==> init[j] == typings[j];
      assert Collect(platform, typings) == Next(Collect(platform, init), CaptureOf(platform, typings[n]));
    }
  }

  /** Collected samples are the prompts' intervals, in order, under the first
      prompt's password. */
  lemma {:induction false} CollectRecords(platform: KeyCapture.Platform, typings: seq<Typing>)
    requires |typings| > 0
    requires Collect(platform, typings).Samples?
    ensures var r := Collect(platform, typings);
      && |r.allTimings| == |typings|
      && forall j :: 0 <= j < |typings| ==> CaptureOf(platform, typings[j]) == RecordedCapture(r, j)
    decreases |typings|
  {
    var n := |typings| - 1;
    var c := CaptureOf(platform, typings[n]);
    if n > 0 {
      var init := typings[..n];
      var r0 := Collect(platform, init);
      var r := Collect(platform, typings);
      assert r == Next(r0, c);
      CollectRecords(platform, init);
      assert r.allTimings == r0.allTimings + [c.timings];
      forall j | 0 <= j < |typings| ensures CaptureOf(platform, typings[j]) == RecordedCapture(r, j) {
        if j < n {
          assert init[j] == typings[j];
          assert CaptureOf(platform, typings[j]) == RecordedCapture(r0, j);
        }
      }
    }
  }

  /** The capture of sample `j` that `r` records. */
  function RecordedCapture(r: Collected, j: int): KeyCapture.Capture
    requires r.Samples? && 0 <= j < |r.allTimings|
  {
    KeyCapture.Captured(r.password, r.allTimings[j])
  }

  /** What the terminal methods return, or the `KeyboardInterrupt` they let through. */
  datatype Result = Returned(value: bool) | KeyboardInterrupt

  class KeystrokeAuthenticator {
    var profiles: map<string, Profile>
    ghost var persisted: map<string, Profile>
    const root: Stats.Root
    const platform: KeyCapture.Platform

    ghost predicate Valid()
      reads this
    {
      && (forall u :: u in profiles ==> Readable(profiles[u]))
      && persisted == profiles
    }

    constructor (loaded: map<string, Profile>, root: Stats.Root, platform: KeyCapture.Platform)
      requires forall u :: u in loaded ==> Readable(loaded[u])
      ensures Valid()
      ensures profiles == loaded && this.root == root && this.platform == platform
    {
      profiles := loaded;
      persisted := loaded;
      this.root := root;
      this.platform := platform;
    }

    method SaveProfiles()
      modifies this
      ensures persisted == profiles
      ensures profiles == old(profiles)
    {
      persisted := profiles;
    }

    /** `enroll_user` with one prompt per sample (`num_samples` is `|typings|`):
        Ctrl+C or a password that differs from the first sample's leaves the
        profiles as they were; otherwise the user's entry is set, replacing any
        earlier one, from the collected samples. */
    method Enroll(username: string, typings: seq<Typing>) returns (r: Result)
      requires Valid() && |typings| > 0
      modifies this
      ensures Valid()
      ensures Collect(platform, typings).Aborted? ==> r == KeyboardInterrupt && profiles == old(profiles)
      ensures Collect(platform, typings).Mismatch? ==> r == Returned(false) && profiles == old(profiles)
      ensures Collect(platform, typings).Samples? ==>
        var c := Collect(platform, typings);
        r == Returned(true) && profiles == old(profiles)[username := NewProfile(c.password, c.allTimings, root)]
    {
      var collected := CollectSamples(typings);
      match collected
      case Aborted =>
        return KeyboardInterrupt;
      case Mismatch =>
        return Returned(false);
      case Samples(password, allTimings) =>
        var avgFeatures := Aggregation.AverageFeatures(allTimings, root);
        var profile := Profile(password, avgFeatures, |password|);
        assert profile == NewProfile(password, allTimings, root);
        profiles := profiles[username := profile];
        SaveProfiles();
        return Returned(true);
    }

    /** The sample loop of `enroll_user`: one capture per prompt, stopping at
        Ctrl+C or at the first password that differs from the first sample's. */
    method CollectSamples(typings: seq<Typing>) returns (collected: Collected)
      requires |typings| > 0
      ensures collected == Collect(platform, typings)
    {
      var password: Option<string> := None;
      var allTimings: seq<seq<real>> := [];
      var i := 0;
      while i < |typings|
        invariant 0 <= i <= |typings|
        invariant i == 0 ==> password.None? && allTimings == []
        invariant i > 0 ==> password.Some? && Collect(platform, typings[..i]) == Samples(password.value, allTimings)
      {
        var capture := KeyCapture.CaptureKeystrokeTiming(platform, typings[i].start, typings[i].events);
        assert capture == CaptureOf(platform, typings[i]);
        ghost var sofar := Collect(platform, typings[..i + 1]);
        if i > 0 {
          CollectStep(platform, typings, i);
          assert sofar == Next(Samples(password.value, allTimings), capture);
        } else {
          CollectFirst(platform, typings);
        }
        if capture.Interrupted? {
          CollectAbortedStays(platform, typings, i + 1);
          return Aborted;
        }
        if password.None? {
          password := Some(capture.password);
        } else if capture.password != password.value {
          CollectMismatchStays(platform, typings, i + 1);
          return Mismatch;
        }
        allTimings := allTimings + [capture.timings];
        assert sofar == Samples(password.value, allTimings);
        i := i + 1;
      }
      assert typings[..i] == typings;
      return Samples(password.value, allTimings);
    }

    /** `authenticate_user`: an unknown user is refused whatever would have been
        typed; otherwise one prompt is captured and the decision chain runs on
        its password and intervals. Nothing changes. */
    method Authenticate(username: string, typing: Typing) returns (r: Result)
      requires Valid()
      ensures username !in profiles ==> r == Returned(false)
      ensures username in profiles && CaptureOf(platform, typing).Interrupted? ==> r == KeyboardInterrupt
      ensures username in profiles && CaptureOf(platform, typing).Captured? ==>
        var c := CaptureOf(platform, typing);
        r == Returned(Decide(profiles, username, c.password, c.timings, root).success)
    {
      if username !in profiles {
        return Returned(false);
      }
      var capture := KeyCapture.CaptureKeystrokeTiming(platform, typing.start, typing.events);
      if capture.Interrupted? {
        return KeyboardInterrupt;
      }
      var profile := profiles[username];
      if capture.password != profile.password {
        return Returned(false);
      }
      var currentFeatures := Extract(capture.timings, root);
      if currentFeatures.None? {
        return Returned(false);
      }
      var similarity := Scoring.CompareTimingProfiles(profile.timingProfile, AsMap(currentFeatures.value));
      return Returned(similarity >= Threshold);
    }

    /** `delete_user`: removes the named user if present; nothing else changes. */
    method Delete(username: string)
      requires Valid()
      modifies this
      ensures Valid()
      ensures profiles == old(profiles) - {username}
    {
      if username in profiles {
        profiles := profiles - {username};
        SaveProfiles();
      }
    }
  }

  /** Once the loop has stopped on Ctrl+C, later prompts do not change that. */
  lemma {:induction false} CollectAbortedStays(platform: KeyCapture.Platform, typings: seq<Typing>, k: int)
    requires 0 < k <= |typings|
    requires Collect(platform, typings[..k]).Aborted?
    ensures Collect(platform, typings).Aborted?
    decreases |typings| - k
  {
    if k < |typings| {
      CollectStep(platform, typings, k);
      CollectAbortedStays(platform, typings, k + 1);
    } else {
      assert typings[..k] == typings;
    }
  }

  /** Once a password has differed, later prompts do not change that. */
  lemma {:induction false} CollectMismatchStays(platform: KeyCapture.Platform, typings: seq<Typing>, k: int)
    requires 0 < k <= |typings|
    requires Collect(platform, typings[..k]).Mismatch?
    ensures Collect(platform, typings).Mismatch?
    decreases |typings| - k
  {
    if k < |typings| {
      CollectStep(platform, typings, k);
      CollectMismatchStays(platform, typings, k + 1);
    } else {
      assert typings[..k] == typings;
    }
  }
}
