/**
 * The employee's own results page (app/dashboard/employee/assessment-results/page.tsx):
 * the assessments in which the employee is a ratee, and the responses about the
 * employee bucketed by rater type, each bucket with its response means, their
 * count and their mean to one decimal.
 */
module SelfResultsPage {
  import opened Wrappers
  import opened Types
  import opened Seqs
  import opened Store
  import opened AssessmentHelper

  /** `a.juries.some((jury) => jury.rateeId === userId)`. */
  function HasJuryFor(userId: string): Assessment -> bool
  {
    (a: Assessment) => exists j :: 0 <= j < |a.juries| && a.juries[j].rateeId == userId
  }

  /** The relevant assessments: those with a jury whose ratee is the user, in store order. */
  function RelevantAssessments(assessments: seq<Assessment>, userId: string): (r: seq<Assessment>)
    ensures |r| <= |assessments|
    ensures forall i :: 0 <= i < |r| ==> r[i] in assessments
    ensures forall a :: a in r <==> a in assessments && HasJuryFor(userId)(a)
  {
    forall a {
      FilterMembership(assessments, HasJuryFor(userId), a);
    }
    Filter(assessments, HasJuryFor(userId))
  }

  /** An assessment is relevant exactly when it is stored and one of its juries rates the user. */
  lemma RelevantMembership(assessments: seq<Assessment>, userId: string, a: Assessment)
    ensures a in RelevantAssessments(assessments, userId)
        <==> a in assessments && exists j :: 0 <= j < |a.juries| && a.juries[j].rateeId == userId
  {
    FilterMembership(assessments, HasJuryFor(userId), a);
  }

  /** One entry of `scoresByType`. */
  datatype Bucket = Bucket(scores: seq<real>, count: int, average: real)

  /** The keys of `scoresByType`, in the order `Object.keys` gives them. */
  const BUCKET_KEYS: seq<string> := [SELF, PEER, UPWARD, DOWNWARD]

  function ResponseTypeIs(t: string): Response -> bool { (r: Response) => r.raterType == t }

  lemma HasAnswersFilter(responses: seq<Response>, p: Response -> bool)
    requires HasAnswers(responses)
    ensures HasAnswers(Filter(responses, p))
  {
    var r := Filter(responses, p);
    forall i | 0 <= i < |r| ensures r[i].answers != [] {
      var j :| 0 <= j < |responses| && responses[j] == r[i];
    }
  }

  /** A bucket after the first loop: the means of the responses of type `t`, and their number. */
  function Collected(responses: seq<Response>, t: string): (b: Bucket)
    requires HasAnswers(responses)
    ensures b.count == |b.scores| && b.average == 0.0
  {
    var mine := Filter(responses, ResponseTypeIs(t));
    HasAnswersFilter(responses, ResponseTypeIs(t));
    Bucket(ResponseMeans(mine), |mine|, 0.0)
  }

  /**
   * The finished bucket for type `t`: the means of the responses of that type,
   * their number, and their average as `calculateAverageScore` computes it:
   * the mean of the scores rounded to a whole number of tenths.
   */
  function BucketFor(responses: seq<Response>, t: string): (b: Bucket)
    requires HasAnswers(responses)
    ensures b.count == |b.scores| == |Filter(responses, ResponseTypeIs(t))|
    ensures b.count == 0 ==> b.average == 0.0
    ensures (b.average * 10.0).Floor as real == b.average * 10.0
    ensures b.count > 0 ==> b.average - 0.05 <= SumReal(b.scores) / b.count as real < b.average + 0.05
  {
    var mine := Filter(responses, ResponseTypeIs(t));
    HasAnswersFilter(responses, ResponseTypeIs(t));
    Bucket(ResponseMeans(mine), |mine|, CalculateAverageScore(mine))
  }

  /** One step of the first loop: one more score in the bucket. */
  function Added(b: Bucket, score: real): Bucket
  {
    Bucket(b.scores + [score], b.count + 1, b.average)
  }

  /** One more response adds its mean to the bucket of its own type and leaves the other buckets alone. */
  lemma CollectedStep(responses: seq<Response>, r: Response, t: string)
    requires HasAnswers(responses) && r.answers != []
    ensures HasAnswers(responses + [r])
    ensures r.raterType == t ==> Collected(responses + [r], t) == Added(Collected(responses, t), ResponseMean(r))
    ensures r.raterType != t ==> Collected(responses + [r], t) == Collected(responses, t)
  {
    assert forall i :: 0 <= i < |responses| ==> (responses + [r])[i] == responses[i];
    var p := ResponseTypeIs(t);
    FilterConcat(responses, [r], p);
    var mine := Filter(responses, p);
    HasAnswersFilter(responses, p);
    if r.raterType == t {
      assert Filter([r], p) == [r];
      assert (mine + [r])[..|mine|] == mine;
    } else {
      assert Filter([r], p) == [];
      assert mine + [] == mine;
    }
  }

  /** One step of the second loop: a non-empty bucket gets the mean of its scores, to one decimal. */
  function Averaged(b: Bucket): Bucket
    requires b.count == |b.scores|
  {
    if |b.scores| > 0 then b.(average := Round1(SumReal(b.scores) / b.count as real)) else b
  }

  /** The averaging pass turns the collected bucket of a type into its finished bucket. */
  lemma FinishBucket(responses: seq<Response>, t: string)
    requires HasAnswers(responses)
    ensures Averaged(Collected(responses, t)) == BucketFor(responses, t)
  {
  }

  /** The four keys are distinct, so updating one bucket leaves the other three alone. */
  lemma KeysDistinct()
    ensures forall j, k :: 0 <= j < k < |BUCKET_KEYS| ==> BUCKET_KEYS[j] != BUCKET_KEYS[k]
  {
    assert SELF != UPWARD && SELF != DOWNWARD && SELF != PEER;
    assert UPWARD != DOWNWARD && UPWARD != PEER && DOWNWARD != PEER;
  }

  /** The four empty buckets `scoresByType` starts from. */
  const EMPTY_BUCKETS: map<string, Bucket> :=
    map[SELF := Bucket([], 0, 0.0), PEER := Bucket([], 0, 0.0), UPWARD := Bucket([], 0, 0.0), DOWNWARD := Bucket([], 0, 0.0)]

  /** The buckets after the first loop has seen `responses`; a response of an unknown type is skipped. */
  function CollectAll(responses: seq<Response>): map<string, Bucket>
    requires HasAnswers(responses)
  {
    if responses == [] then EMPTY_BUCKETS
    else
      var n := |responses| - 1;
      var m := CollectAll(responses[..n]);
      var r := responses[n];
      if r.raterType in m then m[r.raterType := Added(m[r.raterType], ResponseMean(r))] else m
  }

  /** After the first loop each of the four buckets holds exactly the means of the responses of its type. */
  lemma {:induction false} CollectAllIsCollected(responses: seq<Response>)
    requires HasAnswers(responses)
    ensures CollectAll(responses).Keys == {SELF, PEER, UPWARD, DOWNWARD}
    ensures forall j :: 0 <= j < |BUCKET_KEYS| ==> CollectAll(responses)[BUCKET_KEYS[j]] == Collected(responses, BUCKET_KEYS[j])
  {
    KeysDistinct();
    if responses == [] {
      forall j | 0 <= j < |BUCKET_KEYS| ensures Collected([], BUCKET_KEYS[j]) == Bucket([], 0, 0.0) {
      }
    } else {
      var n := |responses| - 1;
      var prefix, r := responses[..n], responses[n];
      assert responses == prefix + [r];
      CollectAllIsCollected(prefix);
      forall j | 0 <= j < |BUCKET_KEYS| ensures CollectAll(responses)[BUCKET_KEYS[j]] == Collected(responses, BUCKET_KEYS[j]) {
        CollectedStep(prefix, r, BUCKET_KEYS[j]);
      }
    }
  }

  /** The first loop of `calculateScoresByRaterType`: each response's mean goes into its type's bucket. */
  method CollectBuckets(responses: seq<Response>) returns (buckets: map<string, Bucket>)
    requires HasAnswers(responses)
    ensures buckets.Keys == {SELF, PEER, UPWARD, DOWNWARD}
    ensures forall j :: 0 <= j < |BUCKET_KEYS| ==> buckets[BUCKET_KEYS[j]] == Collected(responses, BUCKET_KEYS[j])
  {
    buckets := EMPTY_BUCKETS;
    for i := 0 to |responses|
      invariant buckets == CollectAll(responses[..i])
    {
      var response := responses[i];
      var avgScore := ResponseMean(response);
      assert responses[..i + 1][..i] == responses[..i];
      if response.raterType in buckets {
        buckets := buckets[response.raterType := Added(buckets[response.raterType], avgScore)];
      }
    }
    assert responses[..|responses|] == responses;
    CollectAllIsCollected(responses);
  }

  /** The second loop: every non-empty bucket gets the mean of its scores, to one decimal. */
  method AverageBuckets(responses: seq<Response>, collected: map<string, Bucket>) returns (buckets: map<string, Bucket>)
    requires HasAnswers(responses)
    requires collected.Keys == {SELF, PEER, UPWARD, DOWNWARD}
    requires forall j :: 0 <= j < |BUCKET_KEYS| ==> collected[BUCKET_KEYS[j]] == Collected(responses, BUCKET_KEYS[j])
    ensures buckets.Keys == {SELF, PEER, UPWARD, DOWNWARD}
    ensures forall j :: 0 <= j < |BUCKET_KEYS| ==> buckets[BUCKET_KEYS[j]] == BucketFor(responses, BUCKET_KEYS[j])
  {
    KeysDistinct();
    buckets := collected;
    for k := 0 to |BUCKET_KEYS|
      invariant buckets.Keys == {SELF, PEER, UPWARD, DOWNWARD}
      invariant forall j :: k <= j < |BUCKET_KEYS| ==> buckets[BUCKET_KEYS[j]] == Collected(responses, BUCKET_KEYS[j])
      invariant forall j :: 0 <= j < k ==> buckets[BUCKET_KEYS[j]] == BucketFor(responses, BUCKET_KEYS[j])
    {
      var t := BUCKET_KEYS[k];
      var b := buckets[t];
      FinishBucket(responses, t);
      var prev := buckets;
      buckets := buckets[t := Averaged(b)];
      assert forall j :: 0 <= j < |BUCKET_KEYS| && j != k ==> buckets[BUCKET_KEYS[j]] == prev[BUCKET_KEYS[j]];
    }
  }

  /**
   * `calculateScoresByRaterType`: nothing without an assessment or a user;
   * otherwise the four buckets, each exactly `BucketFor` the responses about the
   * user in that assessment. JavaScript gives NaN for a response with no
   * answers, so every response is taken to have one.
   */
  method CalculateScoresByRaterType(db: Database, assessment: Option<Assessment>, currentUser: Option<User>)
    returns (r: Option<map<string, Bucket>>)
    requires assessment.Some? && currentUser.Some? ==>
               HasAnswers(db.GetAssessmentResponsesByRatee(assessment.value.id, currentUser.value.id))
    ensures r.None? <==> assessment.None? || currentUser.None?
    ensures r.Some? ==>
              var responses := db.GetAssessmentResponsesByRatee(assessment.value.id, currentUser.value.id);
              && r.value.Keys == {SELF, PEER, UPWARD, DOWNWARD}
              && forall t :: t in r.value ==> r.value[t] == BucketFor(responses, t)
  {
    if assessment.None? || currentUser.None? {
      return None;
    }
    var responses := db.GetAssessmentResponsesByRatee(assessment.value.id, currentUser.value.id);
    var collected := CollectBuckets(responses);
    var buckets := AverageBuckets(responses, collected);
    forall t | t in buckets ensures buckets[t] == BucketFor(responses, t) {
      assert t == BUCKET_KEYS[0] || t == BUCKET_KEYS[1] || t == BUCKET_KEYS[2] || t == BUCKET_KEYS[3];
    }
    return Some(buckets);
  }

  /** Each response of a known type is counted in exactly one bucket; unknown types in none. */
  lemma {:induction false} CountsPartition(responses: seq<Response>)
    ensures |Filter(responses, ResponseTypeIs(SELF))| + |Filter(responses, ResponseTypeIs(PEER))|
            + |Filter(responses, ResponseTypeIs(UPWARD))| + |Filter(responses, ResponseTypeIs(DOWNWARD))|
         == |Filter(responses, (r: Response) => IsKnownRaterType(r.raterType))|
  {
    if responses != [] {
      CountsPartition(responses[1..]);
      assert SELF != UPWARD && SELF != DOWNWARD && SELF != PEER;
      assert UPWARD != DOWNWARD && UPWARD != PEER && DOWNWARD != PEER;
    }
  }

  /** The four counts add up to the responses of a known type, so to at most the number of responses. */
  lemma BucketCountsAddUp(responses: seq<Response>)
    requires HasAnswers(responses)
    ensures BucketFor(responses, SELF).count + BucketFor(responses, PEER).count
            + BucketFor(responses, UPWARD).count + BucketFor(responses, DOWNWARD).count
         == |Filter(responses, (r: Response) => IsKnownRaterType(r.raterType))| <= |responses|
  {
    CountsPartition(responses);
  }

  /** With answers on the 1..5 scale, a non-empty bucket's average is on that scale too. */
  lemma BucketAverageOnScale(responses: seq<Response>, t: string)
    requires HasAnswers(responses)
    requires forall i, j :: 0 <= i < |responses| && 0 <= j < |responses[i].answers| ==> 1 <= responses[i].answers[j].score <= 5
    requires BucketFor(responses, t).count > 0
    ensures 1.0 <= BucketFor(responses, t).average <= 5.0
  {
    var mine := Filter(responses, ResponseTypeIs(t));
    HasAnswersFilter(responses, ResponseTypeIs(t));
    forall i, j | 0 <= i < |mine| && 0 <= j < |mine[i].answers| ensures 1 <= mine[i].answers[j].score <= 5 {
      var k :| 0 <= k < |responses| && responses[k] == mine[i];
    }
    AverageScoreOnScale(mine);
  }
}
