/** The web version's `KeystrokeAuthenticator` and the checks of its `/api/enroll`
    route. Samples arrive already captured as lists of intervals. */
module WebAuthenticator {
  import Stats
  import opened Features
  import Scoring
  import Aggregation
  import opened Profiles

  class KeystrokeAuthenticator {
    /** `self.profiles`: username to stored profile. */
    var profiles: map<string, Profile>
    /** What the profile file holds: the dictionary last saved. */
    ghost var persisted: map<string, Profile>
    /** The square root behind `statistics.stdev`. */
    const root: Stats.Root

    /** Every stored profile can be scored, and the file agrees with memory
        between operations. */
    ghost predicate Valid()
      reads this
    {
      && (forall u :: u in profiles ==> Readable(profiles[u]))
      && persisted == profiles
    }

    /** `__init__`: starts from the profiles loaded from the file. */
    constructor (loaded: map<string, Profile>, root: Stats.Root)
      requires forall u :: u in loaded ==> Readable(loaded[u])
      ensures Valid()
      ensures profiles == loaded && this.root == root
    {
      profiles := loaded;
      persisted := loaded;
      this.root := root;
    }

    /** `save_profiles`: the file now holds the profiles. */
    method SaveProfiles()
      modifies this
      ensures persisted == profiles
      ensures profiles == old(profiles)
    {
      persisted := profiles;
    }

    /** `enroll_user`: fewer than three samples are refused and nothing changes;
        otherwise the user's entry is set, replacing any earlier one, from the
        per-key averages over the samples with at least two intervals. */
    method Enroll(username: string, password: string, allTimings: seq<seq<real>>)
      returns (success: bool, message: string)
      requires Valid()
      modifies this
      ensures Valid()
      ensures |allTimings| < 3 ==>
        !success && message == "Need at least 3 samples" && profiles == old(profiles)
      ensures |allTimings| >= 3 ==>
        && success && message == "User enrolled successfully"
        && profiles == old(profiles)[username := NewProfile(password, allTimings, root)]
    {
      if |allTimings| < 3 {
        return false, "Need at least 3 samples";
      }
      var avgFeatures := Aggregation.AverageFeatures(allTimings, root);
      var profile := Profile(password, avgFeatures, |password|);
      assert profile == NewProfile(password, allTimings, root);
      profiles := profiles[username := profile];
      SaveProfiles();
      return true, "User enrolled successfully";
    }

    /** The `/api/enroll` route: a missing username or password, then an existing
        username, are refused before `enroll_user` runs, so the route never
        replaces a profile. */
    method EnrollRequest(username: string, password: string, allTimings: seq<seq<real>>)
      returns (success: bool, message: string)
      requires Valid()
      modifies this
      ensures Valid()
      ensures username == "" || password == "" ==>
        !success && message == "Username and password required" && profiles == old(profiles)
      ensures username != "" && password != "" && username in old(profiles) ==>
        !success && message == "User already exists" && profiles == old(profiles)
      ensures forall u :: u in old(profiles) ==> u in profiles && profiles[u] == old(profiles)[u]
      ensures success <==> username != "" && password != "" && username !in old(profiles) && |allTimings| >= 3
      ensures success ==> profiles == old(profiles)[username := NewProfile(password, allTimings, root)]
      ensures !success ==> profiles == old(profiles)
    {
      if username == "" || password == "" {
        return false, "Username and password required";
      }
      if username in profiles {
        return false, "User already exists";
      }
      success, message := Enroll(username, password, allTimings);
    }

    /** `authenticate_user`: reads the profiles and changes nothing; its answer
        is the decision chain on the stored profiles. */
    method Authenticate(username: string, password: string, timings: seq<real>)
      returns (success: bool, message: string, similarity: real)
      requires Valid()
      ensures Outcome(success, message, similarity) == Decide(profiles, username, password, timings, root)
    {
      if username !in profiles {
        return false, "User not found", 0.0;
      }
      var profile := profiles[username];
      if password != profile.password {
        return false, "Incorrect password", 0.0;
      }
      var currentFeatures := Extract(timings, root);
      if currentFeatures.None? {
        return false, "Insufficient timing data", 0.0;
      }
      similarity := Scoring.CompareTimingProfiles(profile.timingProfile, AsMap(currentFeatures.value));
      if similarity >= Threshold {
        return true, "Authentication successful", similarity;
      } else {
        return false, "Typing pattern mismatch", similarity;
      }
    }

    /** `list_users`: every enrolled username, each once. */
    method ListUsers() returns (users: seq<string>)
      ensures |users| == |profiles|
      ensures forall u :: u in users <==> u in profiles
      ensures forall i, j :: 0 <= i < j < |users| ==> users[i] != users[j]
    {
      users := [];
      var rest := profiles.Keys;
      while rest != {}
        invariant rest !! set u | u in users
        invariant forall u :: u in profiles <==> u in rest || u in users
        invariant forall i, j :: 0 <= i < j < |users| ==> users[i] != users[j]
        invariant |users| + |rest| == |profiles|
        decreases |rest|
      {
        var u :| u in rest;
        users := users + [u];
        rest := rest - {u};
      }
    }

    /** `delete_user`: removes exactly the named user and reports whether it
        was there; the other users keep their profiles. */
    method Delete(username: string) returns (deleted: bool)
      requires Valid()
      modifies this
      ensures Valid()
      ensures deleted == (username in old(profiles))
      ensures profiles == old(profiles) - {username}
    {
      if username in profiles {
        profiles := profiles - {username};
        SaveProfiles();
        return true;
      }
      return false;
    }
  }
}
