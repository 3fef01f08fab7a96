/** The stored profile of a user and the decision `authenticate_user` reaches
    from it. Both the web and the terminal front ends share these. */
module Profiles {
  import Stats
  import opened Features
  import Scoring
  import Aggregation

  /** One entry of `profiles`: the password as typed at enrollment, the averaged
      features and the password's length. */
  datatype Profile = Profile(password: string, timingProfile: FeatureMap, passwordLength: int)

  /** A profile the scorer can read: an empty feature dictionary, or one that
      holds every scored key. */
  predicate Readable(p: Profile) {
    Scoring.Scorable(p.timingProfile)
  }

  /** A profile as enrollment builds it: the recorded length is the password's,
      and the features are either all six or none. */
  predicate WellFormed(p: Profile) {
    && p.passwordLength == |p.password|
    && (p.timingProfile == map[] || p.timingProfile.Keys == AllKeys)
  }

  /** The entry `enroll_user` stores for `password` and the samples `allTimings`. */
  function NewProfile(password: string, allTimings: seq<seq<real>>, root: Stats.Root): (p: Profile)
    ensures WellFormed(p) && Readable(p)
    ensures p.password == password
    ensures p.timingProfile == map[] <==> forall i :: 0 <= i < |allTimings| ==> |allTimings[i]| < 2
  {
    Aggregation.AggregateKeys(allTimings, root);
    Aggregation.QualifiedEmpty(allTimings);
    Profile(password, Aggregation.Aggregate(allTimings, root), |password|)
  }

  /** The similarity an authentication attempt needs. */
  const Threshold: real := 0.60

  /** What `authenticate_user` returns: success, message and similarity. */
  datatype Outcome = Outcome(success: bool, message: string, similarity: real)

  /** The scored features of one typed password, as a dictionary. */
  function Current(timings: seq<real>, root: Stats.Root): (m: FeatureMap)
    requires |timings| >= 2
    ensures Scoring.Scorable(m)
  {
    AsMap(Extract(timings, root).value)
  }

  /** The chain of checks of `authenticate_user`: an unknown user, then a wrong
      password, then fewer than two intervals each fail with similarity 0; after
      that the attempt succeeds exactly when the similarity of the stored and the
      current features reaches the threshold, and the similarity is reported
      either way. */
  function Decide(profiles: map<string, Profile>, username: string, password: string,
                  timings: seq<real>, root: Stats.Root): (o: Outcome)
    requires username in profiles ==> Readable(profiles[username])
    ensures username !in profiles ==> o == Outcome(false, "User not found", 0.0)
    ensures username in profiles && password != profiles[username].password ==>
      o == Outcome(false, "Incorrect password", 0.0)
    ensures username in profiles && password == profiles[username].password && |timings| < 2 ==>
      o == Outcome(false, "Insufficient timing data", 0.0)
    ensures username in profiles && password == profiles[username].password && |timings| >= 2 ==>
      && o.similarity == Scoring.Similarity(profiles[username].timingProfile, Current(timings, root))
      && (o.success <==> Threshold <= o.similarity)
      && o.message == (if o.success then "Authentication successful" else "Typing pattern mismatch")
  {
    if username !in profiles then Outcome(false, "User not found", 0.0)
    else
      var profile := profiles[username];
      if password != profile.password then Outcome(false, "Incorrect password", 0.0)
      else if |timings| < 2 then Outcome(false, "Insufficient timing data", 0.0)
      else
        var similarity := Scoring.Similarity(profile.timingProfile, Current(timings, root));
        if similarity >= Threshold then Outcome(true, "Authentication successful", similarity)
        else Outcome(false, "Typing pattern mismatch", similarity)
  }

  /** Success needs a known user, the stored password and at least two intervals. */
  lemma SuccessNeedsPasswordAndTimings(profiles: map<string, Profile>, username: string, password: string,
                                        timings: seq<real>, root: Stats.Root)
    requires username in profiles ==> Readable(profiles[username])
    ensures Decide(profiles, username, password, timings, root).success ==>
      && username in profiles
      && password == profiles[username].password
      && |timings| >= 2
      && Threshold <= Decide(profiles, username, password, timings, root).similarity
  {
  }

  /** For non-negative stored features and intervals, the reported similarity lies
      in [0, 1]. */
  lemma SimilarityInRange(profiles: map<string, Profile>, username: string, password: string,
                          timings: seq<real>, root: Stats.Root)
    requires username in profiles ==> Readable(profiles[username])
    requires username in profiles ==> NonNegativeValues(profiles[username].timingProfile)
    requires Stats.NonNegative(timings)
    ensures 0.0 <= Decide(profiles, username, password, timings, root).similarity <= 1.0
  {
    if username in profiles && password == profiles[username].password && |timings| >= 2 {
      var p, c := profiles[username].timingProfile, Current(timings, root);
      ExtractNonNegative(timings, root);
      Scoring.SimilarityAtMostOne(p, c);
    }
  }

  /** A user whose samples all had fewer than two intervals is stored with an
      empty feature dictionary, which scores 0 against anything: the right
      password then always ends in "Typing pattern mismatch". */
  lemma EmptyProfileNeverAccepted(profiles: map<string, Profile>, username: string,
                                  timings: seq<real>, root: Stats.Root)
    requires username in profiles && profiles[username].timingProfile == map[]
    requires |timings| >= 2
    ensures Decide(profiles, username, profiles[username].password, timings, root)
      == Outcome(false, "Typing pattern mismatch", 0.0)
  {
  }

  /** Enrolling with several copies of one typing and then typing it again with
      the right password is accepted with similarity 1. */
  lemma SameTypingAccepted(profiles: map<string, Profile>, username: string, password: string,
                           allTimings: seq<seq<real>>, timings: seq<real>, root: Stats.Root)
    requires |timings| >= 2 && |allTimings| > 0
    requires forall i :: 0 <= i < |allTimings| ==> allTimings[i] == timings
    ensures var enrolled := profiles[username := NewProfile(password, allTimings, root)];
      Decide(enrolled, username, password, timings, root) == Outcome(true, "Authentication successful", 1.0)
  {
    Aggregation.AggregateOfCopies(allTimings, timings, root);
    Scoring.SimilarityWithItself(Current(timings, root));
  }

  /** A typing whose mean, median and total time equal the stored ones, with both
      standard deviations positive, differs only in spread, scores above 0.8 and
      is accepted. */
  lemma SameRhythmAccepted(profiles: map<string, Profile>, username: string,
                           timings: seq<real>, root: Stats.Root)
    requires username in profiles && profiles[username].timingProfile.Keys == AllKeys
    requires |timings| >= 2
    requires var p, f := profiles[username].timingProfile, Extract(timings, root).value;
      && p[Mean] == f.mean && p[Median] == f.median && p[TotalTime] == f.totalTime
      && 0.0 < p[Stdev] && 0.0 < f.stdev
    ensures var o := Decide(profiles, username, profiles[username].password, timings, root);
      o.success && 0.8 < o.similarity
  {
    Scoring.OnlySpreadDiffers(profiles[username].timingProfile, Current(timings, root));
  }

  /** The worked example: "alice" enrolls with password "hunter2" and three
      typings of it with intervals (0.1, 0.12, 0.11), (0.11, 0.1, 0.13) and
      (0.09, 0.11, 0.12), then types the password again with intervals 0.1, 0.11
      and 0.12; the stored and the current mean, median and total time are 0.11,
      0.11 and 0.33, so the attempt is accepted. */
  lemma AliceAccepted(root: Stats.Root)
    ensures var samples := [[0.1, 0.12, 0.11], [0.11, 0.1, 0.13], [0.09, 0.11, 0.12]];
      var profiles := map["alice" := NewProfile("hunter2", samples, root)];
      Decide(profiles, "alice", "hunter2", [0.1, 0.11, 0.12], root).success
  {
    var samples := [[0.1, 0.12, 0.11], [0.11, 0.1, 0.13], [0.09, 0.11, 0.12]];
    var current := [0.1, 0.11, 0.12];
    AliceStored(samples, root);
    CurrentFeatures(current, root);
    var profiles := map["alice" := NewProfile("hunter2", samples, root)];
    SameRhythmAccepted(profiles, "alice", current, root);
  }

  /** `t` is the three intervals `a`, `b`, `c`. */
  predicate Intervals(t: seq<real>, a: real, b: real, c: real) {
    |t| == 3 && t[0] == a && t[1] == b && t[2] == c
  }

  /** The profile stored for the example's three samples. */
  lemma AliceStored(samples: seq<seq<real>>, root: Stats.Root)
    requires |samples| == 3
    requires Intervals(samples[0], 0.1, 0.12, 0.11)
    requires Intervals(samples[1], 0.11, 0.1, 0.13)
    requires Intervals(samples[2], 0.09, 0.11, 0.12)
    ensures var p := Aggregation.Aggregate(samples, root);
      && p.Keys == AllKeys
      && p[Mean] == 0.11 && p[Median] == 0.11 && p[TotalTime] == 0.33 && 0.0 < p[Stdev]
  {
    FirstSample(samples[0], root);
    SecondSample(samples[1], root);
    ThirdSample(samples[2], root);
    StoredFeatures(samples, root);
  }

  /** The stored profile of the example: mean 0.11, median 0.11, total time 0.33
      and a positive standard deviation. */
  lemma StoredFeatures(samples: seq<seq<real>>, root: Stats.Root)
    requires |samples| == 3 && |samples[0]| >= 2 && |samples[1]| >= 2 && |samples[2]| >= 2
    requires var f0, f1, f2 := Extract(samples[0], root).value, Extract(samples[1], root).value,
                               Extract(samples[2], root).value;
      && f0.mean == 0.11 && f1.mean == 0.34 / 3.0 && f2.mean == 0.32 / 3.0
      && f0.median == 0.11 && f1.median == 0.11 && f2.median == 0.11
      && f0.totalTime == 0.33 && f1.totalTime == 0.34 && f2.totalTime == 0.32
      && 0.0 < f0.stdev && 0.0 < f1.stdev && 0.0 < f2.stdev
    ensures var p := Aggregation.Aggregate(samples, root);
      && p.Keys == AllKeys
      && p[Mean] == 0.11 && p[Median] == 0.11 && p[TotalTime] == 0.33 && 0.0 < p[Stdev]
  {
    var f0, f1, f2 := Extract(samples[0], root).value, Extract(samples[1], root).value,
                      Extract(samples[2], root).value;
    Aggregation.AggregateOfThree(samples, root);
    Aggregation.AggregateKeys(samples, root);
    StoredAverages(Aggregation.Aggregate(samples, root), f0, f1, f2);
  }

  /** The arithmetic of the example's averages, on the three samples' features. */
  lemma StoredAverages(p: FeatureMap, f0: Features, f1: Features, f2: Features)
    requires forall k :: k in p && p[k] == (f0.Get(k) + f1.Get(k) + f2.Get(k)) / 3.0
    requires && f0.mean == 0.11 && f1.mean == 0.34 / 3.0 && f2.mean == 0.32 / 3.0
      && f0.median == 0.11 && f1.median == 0.11 && f2.median == 0.11
      && f0.totalTime == 0.33 && f1.totalTime == 0.34 && f2.totalTime == 0.32
      && 0.0 < f0.stdev && 0.0 < f1.stdev && 0.0 < f2.stdev
    ensures p[Mean] == 0.11 && p[Median] == 0.11 && p[TotalTime] == 0.33 && 0.0 < p[Stdev]
  {
    assert p[Mean] == (f0.mean + f1.mean + f2.mean) / 3.0 by {
      assert f0.Get(Mean) == f0.mean;
    }
    assert p[Median] == (f0.median + f1.median + f2.median) / 3.0 by {
      assert f0.Get(Median) == f0.median;
    }
    assert p[TotalTime] == (f0.totalTime + f1.totalTime + f2.totalTime) / 3.0 by {
      assert f0.Get(TotalTime) == f0.totalTime;
    }
    assert p[Stdev] == (f0.stdev + f1.stdev + f2.stdev) / 3.0 by {
      assert f0.Get(Stdev) == f0.stdev;
    }
  }

  lemma FirstSample(t: seq<real>, root: Stats.Root)
    requires Intervals(t, 0.1, 0.12, 0.11)
    ensures var f := Extract(t, root).value;
      f.mean == 0.11 && f.median == 0.11 && f.totalTime == 0.33 && 0.0 < f.stdev
  {
    assert t == [t[0], t[1], t[2]];
    Stats.InsertPast(t[1], t[2]);
    Stats.InsertFront(t[0], [t[2], t[1]]);
    ExtractThree(t[0], t[1], t[2], root);
  }

  lemma SecondSample(t: seq<real>, root: Stats.Root)
    requires Intervals(t, 0.11, 0.1, 0.13)
    ensures var f := Extract(t, root).value;
      f.mean == 0.34 / 3.0 && f.median == 0.11 && f.totalTime == 0.34 && 0.0 < f.stdev
  {
    assert t == [t[0], t[1], t[2]];
    Stats.InsertFront(t[1], [t[2]]);
    Stats.InsertBetween(t[0], t[1], t[2]);
    ExtractThree(t[0], t[1], t[2], root);
  }

  lemma ThirdSample(t: seq<real>, root: Stats.Root)
    requires Intervals(t, 0.09, 0.11, 0.12)
    ensures var f := Extract(t, root).value;
      f.mean == 0.32 / 3.0 && f.median == 0.11 && f.totalTime == 0.32 && 0.0 < f.stdev
  {
    assert t == [t[0], t[1], t[2]];
    Stats.InsertFront(t[1], [t[2]]);
    Stats.InsertFront(t[0], [t[1], t[2]]);
    ExtractThree(t[0], t[1], t[2], root);
  }

  lemma CurrentFeatures(t: seq<real>, root: Stats.Root)
    requires Intervals(t, 0.1, 0.11, 0.12)
    ensures var f := Extract(t, root).value;
      f.mean == 0.11 && f.median == 0.11 && f.totalTime == 0.33 && 0.0 < f.stdev
  {
    assert t == [t[0], t[1], t[2]];
    Stats.InsertFront(t[1], [t[2]]);
    Stats.InsertFront(t[0], [t[1], t[2]]);
    ExtractThree(t[0], t[1], t[2], root);
  }
}
