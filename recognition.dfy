/** The verification step of `recognize_speaker` in voice_recognition.py: score the probe
    against every stored voiceprint, keep the closest in iteration order, and accept it only
    below a threshold. The distance is a parameter standing for SciPy's cosine distance. */
module Recognition {
  import opened Wrappers
  import opened SpeakerStore

  /** The threshold the source compares against. */
  const DefaultThreshold: real := 0.6

  /** A distance between a probe and a stored voiceprint (cosine distance in the source). */
  type Distance = (Voiceprint, Voiceprint) -> real

  /** What one verification reports: the closest name (None before any entry is seen), its
      score (None standing for `float("inf")`), and whether the speaker is recognized. */
  datatype MatchResult = MatchResult(bestMatch: Option<string>, bestScore: Option<real>, recognized: bool)

  /** Entry `k` is the one the scan settles on: no entry scores lower, and every entry before
      it scores strictly higher (the first of several equal minima wins). */
  ghost predicate IsFirstClosest(entries: seq<Entry>, probe: Voiceprint, dist: Distance, k: int) {
    && 0 <= k < |entries|
    && (forall j :: 0 <= j < |entries| ==>
          dist(probe, entries[k].voiceprint) <= dist(probe, entries[j].voiceprint))
    && (forall j :: 0 <= j < k ==>
          dist(probe, entries[k].voiceprint) < dist(probe, entries[j].voiceprint))
  }

  /** The pair (`best_match`, `best_score`) the scan must leave: nothing and +infinity for an
      empty store, otherwise the first closest entry's name and score. */
  ghost predicate IsScanOutcome(entries: seq<Entry>, probe: Voiceprint, dist: Distance,
                                bestMatch: Option<string>, bestScore: Option<real>) {
    if entries == [] then bestMatch == None && bestScore == None
    else exists k :: IsFirstClosest(entries, probe, dist, k)
                     && bestMatch == Some(entries[k].name)
                     && bestScore == Some(dist(probe, entries[k].voiceprint))
  }

  /** The scan of `speaker_db.items()`, replacing the running best only on a strictly
      smaller score. */
  method Scan(entries: seq<Entry>, probe: Voiceprint, dist: Distance)
    returns (bestMatch: Option<string>, bestScore: Option<real>)
    ensures IsScanOutcome(entries, probe, dist, bestMatch, bestScore)
  {
    bestMatch, bestScore := None, None;
    ghost var k := 0;
    for i := 0 to |entries|
      invariant 0 <= k && (k < i || k == 0)
      invariant i == 0 ==> bestMatch == None && bestScore == None
      invariant i > 0 ==> && k < i
                          && bestMatch == Some(entries[k].name)
                          && bestScore == Some(dist(probe, entries[k].voiceprint))
      invariant forall j :: 0 <= j < i ==>
                  dist(probe, entries[k].voiceprint) <= dist(probe, entries[j].voiceprint)
      invariant forall j :: 0 <= j < k ==>
                  dist(probe, entries[k].voiceprint) < dist(probe, entries[j].voiceprint)
    {
      var score := dist(probe, entries[i].voiceprint);
      if bestScore.None? || score < bestScore.value {
        bestScore := Some(score);
        bestMatch := Some(entries[i].name);
        k := i;
      }
    }
    if entries != [] {
      assert IsFirstClosest(entries, probe, dist, k);
    }
  }

  /** `best_match and best_score < threshold`: a missing or empty name is falsy, and an
      infinite score is never below the threshold. */
  predicate Accepted(bestMatch: Option<string>, bestScore: Option<real>, threshold: real)
    ensures bestMatch.None? || bestMatch == Some("") ==> !Accepted(bestMatch, bestScore, threshold)
    ensures bestScore.None? ==> !Accepted(bestMatch, bestScore, threshold)
    ensures bestScore == Some(threshold) ==> !Accepted(bestMatch, bestScore, threshold)
    ensures bestMatch.Some? && bestMatch.value != "" && bestScore.Some? ==>
      (Accepted(bestMatch, bestScore, threshold) <==> bestScore.value < threshold)
  {
    match bestMatch
    case None => false
    case Some(name) => name != "" && bestScore.Some? && bestScore.value < threshold
  }

  /** `recognize_speaker` once the probe voiceprint has been extracted. */
  method Recognize(db: SpeakerDb, probe: Voiceprint, dist: Distance, threshold: real := DefaultThreshold)
    returns (result: MatchResult)
    ensures IsScanOutcome(db.entries, probe, dist, result.bestMatch, result.bestScore)
    ensures result.recognized == Accepted(result.bestMatch, result.bestScore, threshold)
  {
    var bestMatch, bestScore := Scan(db.entries, probe, dist);
    result := MatchResult(bestMatch, bestScore, Accepted(bestMatch, bestScore, threshold));
  }

  /** At most one entry is the first closest. */
  lemma FirstClosestUnique(entries: seq<Entry>, probe: Voiceprint, dist: Distance, k: int, l: int)
    requires IsFirstClosest(entries, probe, dist, k)
    requires IsFirstClosest(entries, probe, dist, l)
    ensures k == l
  {
    var dk, dl := dist(probe, entries[k].voiceprint), dist(probe, entries[l].voiceprint);
    assert k < l ==> dl < dk;
    assert l < k ==> dk < dl;
  }

  /** A non-empty store always has a first closest entry. */
  lemma {:induction false} FirstClosestExists(entries: seq<Entry>, probe: Voiceprint, dist: Distance)
    requires entries != []
    ensures exists k :: IsFirstClosest(entries, probe, dist, k)
  {
    var n := |entries|;
    if n == 1 {
      assert IsFirstClosest(entries, probe, dist, 0);
    } else {
      var init := entries[..n - 1];
      FirstClosestExists(init, probe, dist);
      var k :| IsFirstClosest(init, probe, dist, k);
      if dist(probe, entries[n - 1].voiceprint) < dist(probe, entries[k].voiceprint) {
        assert IsFirstClosest(entries, probe, dist, n - 1);
      } else {
        assert IsFirstClosest(entries, probe, dist, k);
      }
    }
  }

  /** The scan outcome is determined by the store, the probe and the distance. */
  lemma ScanOutcomeUnique(entries: seq<Entry>, probe: Voiceprint, dist: Distance,
                          m1: Option<string>, s1: Option<real>, m2: Option<string>, s2: Option<real>)
    requires IsScanOutcome(entries, probe, dist, m1, s1)
    requires IsScanOutcome(entries, probe, dist, m2, s2)
    ensures m1 == m2 && s1 == s2
  {
    if entries != [] {
      var k1 :| IsFirstClosest(entries, probe, dist, k1) && m1 == Some(entries[k1].name)
                && s1 == Some(dist(probe, entries[k1].voiceprint));
      var k2 :| IsFirstClosest(entries, probe, dist, k2) && m2 == Some(entries[k2].name)
                && s2 == Some(dist(probe, entries[k2].voiceprint));
      FirstClosestUnique(entries, probe, dist, k1, k2);
    }
  }

  /** An empty store: no best match, an infinite best score, and the speaker is rejected. */
  lemma EmptyStoreRejects(probe: Voiceprint, dist: Distance, threshold: real,
                          bestMatch: Option<string>, bestScore: Option<real>)
    requires IsScanOutcome([], probe, dist, bestMatch, bestScore)
    ensures bestMatch == None && bestScore == None
    ensures !Accepted(bestMatch, bestScore, threshold)
  {
  }

  /** A non-empty store always yields a stored name; the voiceprint stored under it scores
      exactly the best score, which is no larger than any entry's score. */
  lemma ScanOutcomeBounds(entries: seq<Entry>, probe: Voiceprint, dist: Distance,
                          bestMatch: Option<string>, bestScore: Option<real>)
    requires IsScanOutcome(entries, probe, dist, bestMatch, bestScore)
    requires entries != []
    ensures bestMatch.Some? && bestMatch.value in Names(entries) && bestScore.Some?
    ensures UniqueNames(entries) ==>
      dist(probe, Lookup(entries, bestMatch.value).value) == bestScore.value
    ensures forall j :: 0 <= j < |entries| ==> bestScore.value <= dist(probe, entries[j].voiceprint)
  {
    var k :| IsFirstClosest(entries, probe, dist, k) && bestMatch == Some(entries[k].name)
             && bestScore == Some(dist(probe, entries[k].voiceprint));
    assert Names(entries)[k] == entries[k].name;
    if UniqueNames(entries) {
      IndexOfUnique(entries, entries[k].name, k);
    }
  }

  /** The decision in full: the speaker is recognized exactly when the first closest entry
      has a non-empty name and scores strictly below the threshold. */
  lemma RecognizedIff(entries: seq<Entry>, probe: Voiceprint, dist: Distance, threshold: real,
                      bestMatch: Option<string>, bestScore: Option<real>)
    requires IsScanOutcome(entries, probe, dist, bestMatch, bestScore)
    ensures Accepted(bestMatch, bestScore, threshold) <==>
      exists k :: && IsFirstClosest(entries, probe, dist, k)
                  && entries[k].name != ""
                  && dist(probe, entries[k].voiceprint) < threshold
  {
    if entries != [] {
      var k :| IsFirstClosest(entries, probe, dist, k) && bestMatch == Some(entries[k].name)
               && bestScore == Some(dist(probe, entries[k].voiceprint));
      forall l | IsFirstClosest(entries, probe, dist, l) ensures l == k {
        FirstClosestUnique(entries, probe, dist, k, l);
      }
    }
  }

  /** Enrolling a voiceprint and then verifying with the same voiceprint names that speaker
      and accepts, provided self-distance is 0, the threshold is positive, the name is not
      empty and every other stored voiceprint is at a positive distance. */
  lemma EnrolThenVerify(entries: seq<Entry>, name: string, voiceprint: Voiceprint,
                        dist: Distance, threshold: real,
                        bestMatch: Option<string>, bestScore: Option<real>)
    requires UniqueNames(entries)
    requires name != "" && 0.0 < threshold
    requires dist(voiceprint, voiceprint) == 0.0
    requires forall j :: 0 <= j < |entries| && entries[j].name != name ==>
               0.0 < dist(voiceprint, entries[j].voiceprint)
    requires IsScanOutcome(Enrolled(entries, name, voiceprint), voiceprint, dist, bestMatch, bestScore)
    ensures bestMatch == Some(name) && bestScore == Some(0.0)
    ensures Accepted(bestMatch, bestScore, threshold)
  {
    var r := Enrolled(entries, name, voiceprint);
    var k :| IsFirstClosest(r, voiceprint, dist, k) && bestMatch == Some(r[k].name)
             && bestScore == Some(dist(voiceprint, r[k].voiceprint));
    var p := if name in Names(entries) then IndexOf(entries, name).value else |entries|;
    assert r[p] == Entry(name, voiceprint);
    forall j | 0 <= j < |r| && j != p
      ensures 0.0 < dist(voiceprint, r[j].voiceprint)
    {
      assert r[j].name != name;
      assert j < |entries| && r[j] == entries[j];
    }
    assert IsFirstClosest(r, voiceprint, dist, p);
    FirstClosestUnique(r, voiceprint, dist, k, p);
  }
}
