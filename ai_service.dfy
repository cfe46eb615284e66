/** The offline stand-ins of the frontend AI service: a keyword answer to a
    symptom description, and a pairwise drug-interaction check against a small
    two-level table keyed by lower-case drug names. */
module AiService {
  import opened Common
  import opened JsText
  import opened JsArray

  // ---------------------------------------------------------------------
  // Symptom check

  /** The three fixed answers of the symptom check. */
  datatype Advice = HeadacheAdvice | CoughAdvice | DefaultAdvice

  /** The text of each answer. */
  function AdviceText(a: Advice): string {
    match a
    case HeadacheAdvice =>
      "Headaches can be caused by various factors including stress, dehydration, lack of sleep, or more serious conditions. If you're also experiencing fever, it could be a sign of infection. I recommend staying hydrated, resting, and taking over-the-counter pain relievers if appropriate. If symptoms persist for more than 48 hours or are severe, please consult a healthcare professional."
    case CoughAdvice =>
      "A cough could be due to a common cold, allergies, or respiratory infection. Stay hydrated, consider using honey for soothing (if not contraindicated), and monitor for fever or difficulty breathing. If symptoms worsen or persist beyond a week, consult a healthcare provider."
    case DefaultAdvice =>
      "Based on the limited information provided, I recommend monitoring your symptoms and resting. If symptoms worsen or persist for more than a few days, please consult a healthcare professional for proper diagnosis and treatment."
  }

  /** `symptoms.toLowerCase().includes(keyword)` */
  predicate Mentions(symptoms: string, keyword: string) {
    Includes(ToLowerCase(symptoms), keyword)
  }

  /** `mockCheckSymptoms(symptoms)`, as the answer whose text it returns:
      headache is looked for before cough. */
  function MockCheckSymptoms(symptoms: string): (r: Advice)
    ensures r == HeadacheAdvice <==> Mentions(symptoms, "headache")
    ensures r == CoughAdvice <==> !Mentions(symptoms, "headache") && Mentions(symptoms, "cough")
    ensures r == DefaultAdvice <==> !Mentions(symptoms, "headache") && !Mentions(symptoms, "cough")
  {
    if Mentions(symptoms, "headache") then HeadacheAdvice
    else if Mentions(symptoms, "cough") then CoughAdvice
    else DefaultAdvice
  }

  /** The answer does not depend on the case of the description. */
  lemma SymptomCheckIgnoresCase(symptoms: string)
    ensures MockCheckSymptoms(ToLowerCase(symptoms)) == MockCheckSymptoms(symptoms)
  {
    ToLowerCaseIdempotent(symptoms);
  }

  // ---------------------------------------------------------------------
  // Drug interactions

  datatype InteractionInfo = InteractionInfo(severity: Severity, description: string, recommendation: string)

  datatype DrugInteraction = DrugInteraction(
    medications: seq<string>, severity: Severity, description: string, recommendation: string)

  /** `knownInteractions`: first drug, then second drug, both lower case. */
  const KnownInteractions: map<string, map<string, InteractionInfo>> := map[
    "warfarin" := map[
      "aspirin" := InteractionInfo(High,
        "Increased risk of bleeding when used together",
        "Avoid concurrent use if possible. Monitor closely for signs of bleeding."),
      "ibuprofen" := InteractionInfo(High,
        "Increased risk of gastrointestinal bleeding",
        "Avoid concurrent use if possible. Consider alternative pain relievers.")
    ],
    "lisinopril" := map[
      "potassium supplements" := InteractionInfo(Medium,
        "May cause hyperkalemia (high potassium levels)",
        "Monitor potassium levels regularly."),
      "spironolactone" := InteractionInfo(Medium,
        "Increased risk of hyperkalemia",
        "Monitor potassium levels and renal function.")
    ]
  ]

  /** `known[a]?.[b]` */
  function Lookup(known: map<string, map<string, InteractionInfo>>, a: string, b: string): (r: Option<InteractionInfo>)
    ensures r.Some? <==> a in known && b in known[a]
    ensures r.Some? ==> r.value == known[a][b]
  {
    if a in known && b in known[a] then Some(known[a][b]) else None
  }

  /** The two medications interact according to `known`, in either order, ignoring case. */
  predicate NamesInteract(known: map<string, map<string, InteractionInfo>>, a: string, b: string) {
    var m1, m2 := ToLowerCase(a), ToLowerCase(b);
    Lookup(known, m1, m2).Some? || Lookup(known, m2, m1).Some?
  }

  /** What one inner-loop iteration pushes for medications `i` and `j`: the
      entry for (i, j) if there is one, else the entry for (j, i), listed
      with both names as given. */
  function PairResult(known: map<string, map<string, InteractionInfo>>, meds: seq<string>, p: (int, int)): (r: Option<DrugInteraction>)
    ensures r.Some? <==> 0 <= p.0 < |meds| && 0 <= p.1 < |meds| && NamesInteract(known, meds[p.0], meds[p.1])
    ensures r.Some? ==> r.value.medications == [meds[p.0], meds[p.1]]
  {
    if !(0 <= p.0 < |meds| && 0 <= p.1 < |meds|) then None
    else
      var med1, med2 := ToLowerCase(meds[p.0]), ToLowerCase(meds[p.1]);
      match Lookup(known, med1, med2)
      case Some(info) => Some(DrugInteraction([meds[p.0], meds[p.1]], info.severity, info.description, info.recommendation))
      case None =>
        match Lookup(known, med2, med1)
        case Some(info) => Some(DrugInteraction([meds[p.0], meds[p.1]], info.severity, info.description, info.recommendation))
        case None => None
  }

  /** The pairs `(i, lo)`, ..., `(i, hi - 1)`. */
  function RowPairs(i: int, lo: int, hi: int): (ps: seq<(int, int)>)
    requires lo <= hi
    ensures |ps| == hi - lo
    ensures forall k :: 0 <= k < |ps| ==> ps[k] == (i, lo + k)
  {
    seq(hi - lo, k requires 0 <= k < hi - lo => (i, lo + k))
  }

  /** The index pairs the nested loops visit before the outer index reaches
      `i`, in visiting order. */
  function PairsBefore(n: nat, i: nat): seq<(int, int)>
    requires i <= n
  {
    if i == 0 then [] else PairsBefore(n, i - 1) + RowPairs(i - 1, i, n)
  }

  /** The finding of one pair, as the list it adds to the results. */
  function Hit(r: Option<DrugInteraction>): seq<DrugInteraction> {
    match r
    case Some(x) => [x]
    case None => []
  }

  /** The findings for the pairs `ps`, in order. */
  function Collect(known: map<string, map<string, InteractionInfo>>, meds: seq<string>, ps: seq<(int, int)>): seq<DrugInteraction> {
    if |ps| == 0 then []
    else Collect(known, meds, ps[..|ps| - 1]) + Hit(PairResult(known, meds, ps[|ps| - 1]))
  }

  /** The result of the nested loops over all pairs `i < j`. */
  function Interactions(known: map<string, map<string, InteractionInfo>>, meds: seq<string>): seq<DrugInteraction> {
    Collect(known, meds, PairsBefore(|meds|, |meds|))
  }

  /** One inner-loop iteration adds the finding of pair `(i, j)`. */
  lemma InnerStep(known: map<string, map<string, InteractionInfo>>, meds: seq<string>, n: nat, i: nat, j: nat)
    requires i < j <= n
    ensures Collect(known, meds, PairsBefore(n, i) + RowPairs(i, i + 1, j + 1))
      == Collect(known, meds, PairsBefore(n, i) + RowPairs(i, i + 1, j)) + Hit(PairResult(known, meds, (i, j)))
  {
    var done := PairsBefore(n, i) + RowPairs(i, i + 1, j);
    assert PairsBefore(n, i) + RowPairs(i, i + 1, j + 1) == done + [(i, j)];
    assert (done + [(i, j)])[..|done|] == done;
  }

  /** The finding of pair `(i, j)` from its two lookups. */
  lemma PairFromLookups(known: map<string, map<string, InteractionInfo>>, meds: seq<string>, i: nat, j: nat,
                        forward: Option<InteractionInfo>, backward: Option<InteractionInfo>)
    requires i < |meds| && j < |meds|
    requires forward == Lookup(known, ToLowerCase(meds[i]), ToLowerCase(meds[j]))
    requires backward == Lookup(known, ToLowerCase(meds[j]), ToLowerCase(meds[i]))
    ensures Hit(PairResult(known, meds, (i, j))) ==
      if forward.Some? then
        [DrugInteraction([meds[i], meds[j]], forward.value.severity, forward.value.description, forward.value.recommendation)]
      else if backward.Some? then
        [DrugInteraction([meds[i], meds[j]], backward.value.severity, backward.value.description, backward.value.recommendation)]
      else []
  {
  }

  /** `mockCheckDrugInteractions(medications)` with the table `known`: the
      outer loop over the first medication of a pair. */
  method CheckDrugInteractions(known: map<string, map<string, InteractionInfo>>, medications: seq<string>)
    returns (results: seq<DrugInteraction>)
    ensures results == Interactions(known, medications)
  {
    results := [];
    var i := 0;
    while i < |medications|
      invariant 0 <= i <= |medications|
      invariant results == Collect(known, medications, PairsBefore(|medications|, i))
    {
      results := CheckRow(known, medications, i, results);
      i := i + 1;
    }
  }

  /** The inner loop for first medication `i`: it pairs `i` with every later
      medication and pushes each finding onto `results`. */
  method CheckRow(known: map<string, map<string, InteractionInfo>>, medications: seq<string>, i: nat,
                  results0: seq<DrugInteraction>)
    returns (results: seq<DrugInteraction>)
    requires i < |medications|
    requires results0 == Collect(known, medications, PairsBefore(|medications|, i))
    ensures results == Collect(known, medications, PairsBefore(|medications|, i + 1))
  {
    var n := |medications|;
    results := results0;
    var j := i + 1;
    assert PairsBefore(n, i) + RowPairs(i, i + 1, j) == PairsBefore(n, i);
    while j < n
      invariant i + 1 <= j <= n
      invariant results == Collect(known, medications, PairsBefore(n, i) + RowPairs(i, i + 1, j))
    {
      InnerStep(known, medications, n, i, j);
      ghost var before := results;
      var med1 := ToLowerCase(medications[i]);
      var med2 := ToLowerCase(medications[j]);
      var forward := Lookup(known, med1, med2);
      var backward := Lookup(known, med2, med1);
      PairFromLookups(known, medications, i, j, forward, backward);
      if forward.Some? {
        results := results + [DrugInteraction([medications[i], medications[j]],
          forward.value.severity, forward.value.description, forward.value.recommendation)];
      } else if backward.Some? {
        results := results + [DrugInteraction([medications[i], medications[j]],
          backward.value.severity, backward.value.description, backward.value.recommendation)];
      }
      assert results == before + Hit(PairResult(known, medications, (i, j)));
      j := j + 1;
    }
  }

  /** `mockCheckDrugInteractions(medications)`: the check against `knownInteractions`. */
  method MockCheckDrugInteractions(medications: seq<string>) returns (results: seq<DrugInteraction>)
    ensures results == Interactions(KnownInteractions, medications)
  {
    results := CheckDrugInteractions(KnownInteractions, medications);
  }

  // ---------------------------------------------------------------------
  // Properties of the pairwise check

  /** `p` comes before `q` in the order the nested loops visit pairs. */
  predicate PairBefore(p: (int, int), q: (int, int)) {
    p.0 < q.0 || (p.0 == q.0 && p.1 < q.1)
  }

  /** The loops visit each pair `i < j` below `n` with `i` under the outer
      bound, and no other pair: no medication is paired with itself. */
  lemma {:induction false} PairsBeforeMembers(n: nat, i: nat, p: (int, int))
    requires i <= n
    ensures p in PairsBefore(n, i) <==> 0 <= p.0 < i && p.0 < p.1 < n
  {
    if i > 0 {
      PairsBeforeMembers(n, i - 1, p);
      var row := RowPairs(i - 1, i, n);
      if p.0 == i - 1 && i - 1 < p.1 < n {
        assert row[p.1 - i] == p;
      }
    }
  }

  /** The loops visit pairs in strictly increasing `(i, j)` order, so each pair once. */
  lemma {:induction false} PairsBeforeOrdered(n: nat, i: nat)
    requires i <= n
    ensures forall a, b :: 0 <= a < b < |PairsBefore(n, i)| ==> PairBefore(PairsBefore(n, i)[a], PairsBefore(n, i)[b])
  {
    if i > 0 {
      PairsBeforeOrdered(n, i - 1);
      var prev, row := PairsBefore(n, i - 1), RowPairs(i - 1, i, n);
      forall a | 0 <= a < |prev|
        ensures prev[a].0 < i - 1
      {
        PairsBeforeMembers(n, i - 1, prev[a]);
      }
      var all := prev + row;
      forall a, b | 0 <= a < b < |all|
        ensures PairBefore(all[a], all[b])
      {
        if b < |prev| {
          assert all[a] == prev[a] && all[b] == prev[b];
        } else if a < |prev| {
          assert all[a] == prev[a] && all[b] == row[b - |prev|];
        } else {
          assert all[a] == row[a - |prev|] && all[b] == row[b - |prev|];
        }
      }
    }
  }

  /** The loops visit `i` rows of decreasing length: `n - 1` pairs, then `n - 2`, and so on. */
  lemma {:induction false} PairsBeforeCount(n: nat, i: nat)
    requires i <= n
    ensures 2 * |PairsBefore(n, i)| == i * (2 * n - i - 1)
  {
    if i > 0 {
      PairsBeforeCount(n, i - 1);
      assert |PairsBefore(n, i)| == |PairsBefore(n, i - 1)| + (n - i);
      RowCountStep(n, i, |PairsBefore(n, i - 1)|);
    }
  }

  lemma RowCountStep(n: int, i: int, c: int)
    requires 2 * c == (i - 1) * (2 * n - i)
    ensures 2 * (c + (n - i)) == i * (2 * n - i - 1)
  {
    assert (i - 1) * (2 * n - i) == i * (2 * n - i) - (2 * n - i);
    assert i * (2 * n - i) - i == i * (2 * n - i - 1);
  }

  /** A finding belongs to a pair of `ps`. */
  lemma {:induction false} CollectMembers(known: map<string, map<string, InteractionInfo>>, meds: seq<string>,
                                          ps: seq<(int, int)>, x: DrugInteraction)
    ensures x in Collect(known, meds, ps) <==> exists k :: 0 <= k < |ps| && PairResult(known, meds, ps[k]) == Some(x)
    decreases |ps|
  {
    if |ps| > 0 {
      var init := ps[..|ps| - 1];
      CollectMembers(known, meds, init, x);
      if exists k :: 0 <= k < |ps| && PairResult(known, meds, ps[k]) == Some(x) {
        var k :| 0 <= k < |ps| && PairResult(known, meds, ps[k]) == Some(x);
        if k < |init| {
          assert init[k] == ps[k];
        }
      }
      if exists k :: 0 <= k < |init| && PairResult(known, meds, init[k]) == Some(x) {
        var k :| 0 <= k < |init| && PairResult(known, meds, init[k]) == Some(x);
        assert ps[k] == init[k];
      }
    }
  }

  /** The pairs of `ps` that produce a finding, in order. */
  function HitPairs(known: map<string, map<string, InteractionInfo>>, meds: seq<string>, ps: seq<(int, int)>): seq<(int, int)> {
    Filter(ps, (p: (int, int)) => PairResult(known, meds, p).Some?)
  }

  /** The findings are the results of the pairs that produce one, one each, in order. */
  lemma {:induction false} CollectFollowsHits(known: map<string, map<string, InteractionInfo>>, meds: seq<string>, ps: seq<(int, int)>)
    ensures var r, hits := Collect(known, meds, ps), HitPairs(known, meds, ps);
      |r| == |hits| && forall k :: 0 <= k < |r| ==> PairResult(known, meds, hits[k]) == Some(r[k])
    decreases |ps|
  {
    if |ps| > 0 {
      var init, last := ps[..|ps| - 1], ps[|ps| - 1];
      CollectFollowsHits(known, meds, init);
      assert ps == init + [last];
      FilterSnoc(init, last, (p: (int, int)) => PairResult(known, meds, p).Some?);
    }
  }

  /** Keeping some elements of a sequence in increasing pair order leaves it in that order. */
  lemma {:induction false} SubsequenceOrdered(r: seq<(int, int)>, s: seq<(int, int)>)
    requires IsSubsequence(r, s)
    requires forall a, b :: 0 <= a < b < |s| ==> PairBefore(s[a], s[b])
    ensures forall a, b :: 0 <= a < b < |r| ==> PairBefore(r[a], r[b])
    ensures forall a :: 0 <= a < |r| ==> r[a] in s
    decreases |s|
  {
    if |r| > 0 {
      var t := s[1..];
      assert forall a, b :: 0 <= a < b < |t| ==> PairBefore(t[a], t[b]) by {
        forall a, b | 0 <= a < b < |t|
          ensures PairBefore(t[a], t[b])
        {
          assert t[a] == s[a + 1] && t[b] == s[b + 1];
        }
      }
      if r[0] == s[0] && IsSubsequence(r[1..], t) {
        SubsequenceOrdered(r[1..], t);
        forall a, b | 0 <= a < b < |r|
          ensures PairBefore(r[a], r[b])
        {
          assert r[b] == r[1..][b - 1];
          var c :| 0 <= c < |t| && t[c] == r[b];
          assert s[c + 1] == r[b];
          if a > 0 {
            assert r[a] == r[1..][a - 1];
          }
        }
        forall a | 0 <= a < |r|
          ensures r[a] in s
        {
          if a > 0 {
            assert r[a] == r[1..][a - 1];
          }
        }
      } else {
        SubsequenceOrdered(r, t);
      }
    }
  }

  /** A medication list has a finding for a pair `i < j` exactly when the
      table has an entry for the two names, in either order and ignoring
      case; every finding comes from such a pair. */
  lemma InteractionsSoundAndComplete(known: map<string, map<string, InteractionInfo>>, meds: seq<string>, x: DrugInteraction)
    ensures x in Interactions(known, meds)
      <==> exists i, j :: 0 <= i < j < |meds| && PairResult(known, meds, (i, j)) == Some(x)
  {
    var ps := PairsBefore(|meds|, |meds|);
    CollectMembers(known, meds, ps, x);
    forall k | 0 <= k < |ps|
      ensures 0 <= ps[k].0 < ps[k].1 < |meds| && ps[k] == (ps[k].0, ps[k].1)
    {
      PairsBeforeMembers(|meds|, |meds|, ps[k]);
    }
    if exists i, j :: 0 <= i < j < |meds| && PairResult(known, meds, (i, j)) == Some(x) {
      var i, j :| 0 <= i < j < |meds| && PairResult(known, meds, (i, j)) == Some(x);
      PairsBeforeMembers(|meds|, |meds|, (i, j));
      var k :| 0 <= k < |ps| && ps[k] == (i, j);
    }
  }

  /** At most one finding per pair: no more than `n (n - 1) / 2`, and none
      for fewer than two medications. */
  lemma InteractionsCount(known: map<string, map<string, InteractionInfo>>, meds: seq<string>)
    ensures 2 * |Interactions(known, meds)| <= |meds| * (|meds| - 1)
    ensures |meds| < 2 ==> Interactions(known, meds) == []
  {
    var n := |meds|;
    var ps := PairsBefore(n, n);
    var hits := HitPairs(known, meds, ps);
    CollectFollowsHits(known, meds, ps);
    FilterIsSubsequence(ps, (p: (int, int)) => PairResult(known, meds, p).Some?);
    SubsequenceLength(hits, ps);
    assert |Interactions(known, meds)| <= |ps|;
    PairsBeforeCount(n, n);
    assert 2 * n - n - 1 == n - 1;
    if n < 2 {
      assert n == 0 || n == 1;
      assert n * (n - 1) == 0;
    }
  }

  /** The `k`-th finding belongs to the `k`-th pair, in `(i, j)` order, that
      has an entry in the table. */
  lemma InteractionsInPairOrder(known: map<string, map<string, InteractionInfo>>, meds: seq<string>)
    ensures var r, hits := Interactions(known, meds), HitPairs(known, meds, PairsBefore(|meds|, |meds|));
      && |r| == |hits|
      && (forall k :: 0 <= k < |r| ==> 0 <= hits[k].0 < hits[k].1 < |meds| && PairResult(known, meds, hits[k]) == Some(r[k]))
      && (forall a, b :: 0 <= a < b < |hits| ==> PairBefore(hits[a], hits[b]))
  {
    var ps := PairsBefore(|meds|, |meds|);
    var hits := HitPairs(known, meds, ps);
    CollectFollowsHits(known, meds, ps);
    FilterIsSubsequence(ps, (p: (int, int)) => PairResult(known, meds, p).Some?);
    PairsBeforeOrdered(|meds|, |meds|);
    SubsequenceOrdered(hits, ps);
    forall k | 0 <= k < |hits|
      ensures 0 <= hits[k].0 < hits[k].1 < |meds|
    {
      PairsBeforeMembers(|meds|, |meds|, hits[k]);
    }
  }

  /** When the table has an entry for the first name followed by the second,
      that entry is reported, whatever the reverse entry says. */
  lemma ForwardEntryPreferred(known: map<string, map<string, InteractionInfo>>, meds: seq<string>, i: nat, j: nat, info: InteractionInfo)
    requires i < |meds| && j < |meds|
    requires Lookup(known, ToLowerCase(meds[i]), ToLowerCase(meds[j])) == Some(info)
    ensures PairResult(known, meds, (i, j))
      == Some(DrugInteraction([meds[i], meds[j]], info.severity, info.description, info.recommendation))
  {
  }

  /** Without a forward entry, the reverse entry is reported. */
  lemma ReverseEntryUsed(known: map<string, map<string, InteractionInfo>>, meds: seq<string>, i: nat, j: nat, info: InteractionInfo)
    requires i < |meds| && j < |meds|
    requires Lookup(known, ToLowerCase(meds[i]), ToLowerCase(meds[j])).None?
    requires Lookup(known, ToLowerCase(meds[j]), ToLowerCase(meds[i])) == Some(info)
    ensures PairResult(known, meds, (i, j))
      == Some(DrugInteraction([meds[i], meds[j]], info.severity, info.description, info.recommendation))
  {
  }

  /** Whether two names interact does not depend on their order. */
  lemma NamesInteractSymmetric(known: map<string, map<string, InteractionInfo>>, a: string, b: string)
    ensures NamesInteract(known, a, b) <==> NamesInteract(known, b, a)
  {
  }

  /** Whether two names interact does not depend on their case. */
  lemma NamesInteractIgnoresCase(known: map<string, map<string, InteractionInfo>>, a: string, b: string)
    ensures NamesInteract(known, ToLowerCase(a), ToLowerCase(b)) <==> NamesInteract(known, a, b)
  {
    ToLowerCaseIdempotent(a);
    ToLowerCaseIdempotent(b);
  }
}
