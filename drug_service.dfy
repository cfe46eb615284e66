/** The offline fallbacks of the frontend drug service: a fixed table of ten
    drugs and six interactions, the interaction finder used when the server
    cannot be reached, and the name search over the drug table. */
module DrugService {
  import opened Common
  import opened JsText
  import opened JsArray

  datatype Drug = Drug(id: string, name: string, dosage: Option<string>, frequency: Option<string>)

  datatype Interaction = Interaction(
    id: string, severity: Severity, description: string, recommendation: string,
    drugs: (string, string))

  const MockDrugs: seq<Drug> := [
    Drug("1", "Lisinopril", Some("10mg"), Some("Once daily")),
    Drug("2", "Atorvastatin", Some("20mg"), Some("Once daily")),
    Drug("3", "Metformin", Some("500mg"), Some("Twice daily")),
    Drug("4", "Aspirin", Some("81mg"), Some("Once daily")),
    Drug("5", "Levothyroxine", Some("50mcg"), Some("Once daily")),
    Drug("6", "Amlodipine", Some("5mg"), Some("Once daily")),
    Drug("7", "Metoprolol", Some("25mg"), Some("Twice daily")),
    Drug("8", "Sertraline", Some("50mg"), Some("Once daily")),
    Drug("9", "Warfarin", Some("5mg"), Some("Once daily")),
    Drug("10", "Ibuprofen", Some("400mg"), Some("As needed"))
  ]

  const MockInteractions: seq<Interaction> := [
    Interaction("1", High,
      "Warfarin and Aspirin can increase the risk of bleeding when used together.",
      "Avoid concurrent use if possible. If necessary, monitor closely for signs of bleeding.",
      ("Warfarin", "Aspirin")),
    Interaction("2", Medium,
      "Lisinopril and Metformin may increase the risk of hypoglycemia.",
      "Monitor blood glucose levels more frequently when starting or adjusting doses.",
      ("Lisinopril", "Metformin")),
    Interaction("3", High,
      "Sertraline and Warfarin may increase the risk of bleeding.",
      "Monitor INR more frequently and adjust Warfarin dosage as needed.",
      ("Sertraline", "Warfarin")),
    Interaction("4", Low,
      "Atorvastatin and Amlodipine may increase the plasma concentration of Atorvastatin.",
      "No action typically required, but be aware of potential statin side effects.",
      ("Atorvastatin", "Amlodipine")),
    Interaction("5", Medium,
      "Metoprolol and Amlodipine may cause additive hypotensive effects.",
      "Monitor blood pressure regularly, especially when starting or adjusting doses.",
      ("Metoprolol", "Amlodipine")),
    Interaction("6", High,
      "Ibuprofen may decrease the antiplatelet effect of Aspirin.",
      "Take Aspirin at least 2 hours before Ibuprofen if possible.",
      ("Ibuprofen", "Aspirin"))
  ]

  /** `mockDrugs.find(d => d.id === id)`, then its name, or `''` for an
      unknown id. The drug table is a parameter of this and the functions
      below; the service applies them to `MockDrugs` and `MockInteractions`. */
  function NameOfId(drugs: seq<Drug>, id: string): string {
    match Find(drugs, (d: Drug) => d.id == id)
    case None => ""
    case Some(d) => d.name
  }

  /** `name` is the name of the drug some id of `drugIds` resolves to. */
  ghost predicate Resolves(drugs: seq<Drug>, drugIds: seq<string>, name: string) {
    name != "" && exists i :: 0 <= i < |drugIds| && NameOfId(drugs, drugIds[i]) == name
  }

  /** The first step of `findMockInteractions`: ids mapped to names, unknown ids dropped. */
  function DrugNames(drugs: seq<Drug>, drugIds: seq<string>): (names: seq<string>)
    ensures forall n :: n in names <==> Resolves(drugs, drugIds, n)
  {
    var all := Map(drugIds, (id: string) => NameOfId(drugs, id));
    var names := Filter(all, (n: string) => n != "");
    assert forall n :: Resolves(drugs, drugIds, n) ==> n in names by {
      forall n | Resolves(drugs, drugIds, n)
        ensures n in names
      {
        var i :| 0 <= i < |drugIds| && NameOfId(drugs, drugIds[i]) == n;
        assert all[i] == n;
      }
    }
    assert forall n :: n in names ==> Resolves(drugs, drugIds, n) by {
      forall n | n in names
        ensures Resolves(drugs, drugIds, n)
      {
        var i :| 0 <= i < |all| && all[i] == n;
      }
    }
    names
  }

  /** Both drugs of `x` are among `names`. */
  predicate BothListed(x: Interaction, names: seq<string>) {
    x.drugs.0 in names && x.drugs.1 in names
  }

  /** The interactions of `table` whose two drugs both resolve from `drugIds`. */
  function FindInteractions(drugs: seq<Drug>, table: seq<Interaction>, drugIds: seq<string>): seq<Interaction> {
    var names := DrugNames(drugs, drugIds);
    Filter(table, (x: Interaction) => BothListed(x, names))
  }

  /** `findMockInteractions(drugIds)` */
  function FindMockInteractions(drugIds: seq<string>): seq<Interaction> {
    FindInteractions(MockDrugs, MockInteractions, drugIds)
  }

  /** An interaction is reported exactly when it is in the table and both of
      its drugs resolve from the given ids. */
  lemma InteractionsSoundAndComplete(drugs: seq<Drug>, table: seq<Interaction>, drugIds: seq<string>, x: Interaction)
    ensures x in FindInteractions(drugs, table, drugIds)
      <==> x in table && Resolves(drugs, drugIds, x.drugs.0) && Resolves(drugs, drugIds, x.drugs.1)
  {
    var names := DrugNames(drugs, drugIds);
    var keep := (x: Interaction) => BothListed(x, names);
    if x in table && keep(x) {
      var i :| 0 <= i < |table| && table[i] == x;
    }
  }

  /** The report lists table entries in table order. */
  lemma InteractionsInTableOrder(drugs: seq<Drug>, table: seq<Interaction>, drugIds: seq<string>)
    ensures IsSubsequence(FindInteractions(drugs, table, drugIds), table)
  {
    var names := DrugNames(drugs, drugIds);
    FilterIsSubsequence(table, (x: Interaction) => BothListed(x, names));
  }

  /** The report depends only on which drugs the ids resolve to. */
  lemma InteractionsDependOnResolvedNames(drugs: seq<Drug>, table: seq<Interaction>, ids1: seq<string>, ids2: seq<string>)
    requires forall n :: Resolves(drugs, ids1, n) <==> Resolves(drugs, ids2, n)
    ensures FindInteractions(drugs, table, ids1) == FindInteractions(drugs, table, ids2)
  {
    var names1, names2 := DrugNames(drugs, ids1), DrugNames(drugs, ids2);
    FilterCongruent(table, (x: Interaction) => BothListed(x, names1), (x: Interaction) => BothListed(x, names2));
  }

  /** Every drug that an id of `ids1` resolves to, an id of `ids2` resolves to as well. */
  lemma SameIdsResolveAlike(drugs: seq<Drug>, ids1: seq<string>, ids2: seq<string>)
    requires forall id :: id in ids1 ==> id in ids2
    ensures forall n :: Resolves(drugs, ids1, n) ==> Resolves(drugs, ids2, n)
  {
    forall n | Resolves(drugs, ids1, n)
      ensures Resolves(drugs, ids2, n)
    {
      var i :| 0 <= i < |ids1| && NameOfId(drugs, ids1[i]) == n;
      assert ids1[i] in ids2;
      var j :| 0 <= j < |ids2| && ids2[j] == ids1[i];
    }
  }

  /** Reordering or repeating ids does not change the report. */
  lemma InteractionsIgnoreOrderAndRepeats(drugs: seq<Drug>, table: seq<Interaction>, ids1: seq<string>, ids2: seq<string>)
    requires forall id :: id in ids1 <==> id in ids2
    ensures FindInteractions(drugs, table, ids1) == FindInteractions(drugs, table, ids2)
  {
    SameIdsResolveAlike(drugs, ids1, ids2);
    SameIdsResolveAlike(drugs, ids2, ids1);
    InteractionsDependOnResolvedNames(drugs, table, ids1, ids2);
  }

  /** An id that names no drug of the table contributes nothing. */
  lemma UnknownIdIgnored(drugs: seq<Drug>, table: seq<Interaction>, drugIds: seq<string>, id: string)
    requires forall d :: d in drugs ==> d.id != id
    ensures FindInteractions(drugs, table, drugIds + [id]) == FindInteractions(drugs, table, drugIds)
  {
    var ids := drugIds + [id];
    assert NameOfId(drugs, id) == "";
    forall n | Resolves(drugs, ids, n)
      ensures Resolves(drugs, drugIds, n)
    {
      var i :| 0 <= i < |ids| && NameOfId(drugs, ids[i]) == n;
      assert i < |drugIds| && ids[i] == drugIds[i];
    }
    SameIdsResolveAlike(drugs, drugIds, ids);
    InteractionsDependOnResolvedNames(drugs, table, ids, drugIds);
  }

  /** Adding ids never removes an interaction from the report. */
  lemma InteractionsMonotone(drugs: seq<Drug>, table: seq<Interaction>, ids1: seq<string>, ids2: seq<string>)
    requires forall id :: id in ids1 ==> id in ids2
    ensures IsSubsequence(FindInteractions(drugs, table, ids1), FindInteractions(drugs, table, ids2))
  {
    SameIdsResolveAlike(drugs, ids1, ids2);
    var names1, names2 := DrugNames(drugs, ids1), DrugNames(drugs, ids2);
    FilterMonotone(table, (x: Interaction) => BothListed(x, names1), (x: Interaction) => BothListed(x, names2));
  }

  // ---------------------------------------------------------------------
  // Search fallback

  /** `drug.name.toLowerCase().includes(query.toLowerCase())` */
  predicate NameMatches(d: Drug, query: string) {
    Includes(ToLowerCase(d.name), ToLowerCase(query))
  }

  /** The drugs of `drugs` whose name contains `query`, ignoring case. */
  function Search(drugs: seq<Drug>, query: string): seq<Drug> {
    Filter(drugs, (d: Drug) => NameMatches(d, query))
  }

  /** The result of `searchDrugs(query)` when the server cannot be reached. */
  function SearchFallback(query: string): seq<Drug> {
    Search(MockDrugs, query)
  }

  /** The search returns exactly the drugs whose name contains the query,
      ignoring case, in table order. */
  lemma SearchFinds(drugs: seq<Drug>, query: string, d: Drug)
    ensures d in Search(drugs, query) <==> d in drugs && NameMatches(d, query)
    ensures IsSubsequence(Search(drugs, query), drugs)
  {
    var keep := (d: Drug) => NameMatches(d, query);
    if d in drugs && keep(d) {
      var i :| 0 <= i < |drugs| && drugs[i] == d;
    }
    FilterIsSubsequence(drugs, keep);
  }

  /** The empty query matches every drug. */
  lemma EmptySearchReturnsAll(drugs: seq<Drug>)
    ensures Search(drugs, "") == drugs
  {
    var keep := (d: Drug) => NameMatches(d, "");
    forall i | 0 <= i < |drugs|
      ensures keep(drugs[i])
    {
      assert ToLowerCase("") <= ToLowerCase(drugs[i].name)[0..];
    }
    FilterAll(drugs, keep);
  }
}
