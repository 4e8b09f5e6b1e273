/**
  The regions a user can pick: each label as shown and the code the events
  site uses for it.
*/
module Locations {

  /** `LOCATION_CHOICES`: (label, code) pairs. */
  const LocationChoices: seq<(string, string)> := [
    ("Αττική", ".area1"),
    ("Αχαΐα", ".area1012"),
    ("Δράμα", ".area1016"),
    ("Ηράκλειο", ".area1029"),
    ("Θεσσαλονίκη", ".area1060"),
    ("Ιωάννινα", ".area1031"),
    ("Καστοριά", ".area1034"),
    ("Λάρισα", ".area1039"),
    ("Μαγνησία", ".area1042"),
    ("Μεσσηνία", ".area1043"),
    ("Ξάνθη", ".area1044"),
    ("Ροδόπη", ".area1049"),
    ("Χανιά", ".area1057")
  ]

  /** `{v: lbl for (lbl, v) in pairs}`: later pairs overwrite earlier ones with the same code. */
  function LabelMap(pairs: seq<(string, string)>): map<string, string> {
    if pairs == [] then map[]
    else LabelMap(pairs[..|pairs| - 1])[pairs[|pairs| - 1].1 := pairs[|pairs| - 1].0]
  }

  /** `LABEL_BY_VALUE` */
  function LabelByValue(): map<string, string> {
    LabelMap(LocationChoices)
  }

  /** `LOCATION_VALUES` */
  function LocationValues(): set<string> {
    LabelByValue().Keys
  }

  /** The location the scraper works on when none is given (`location_code`, `location_title`). */
  const DefaultLocationCode: string := ".area1"
  const DefaultLocationTitle: string := "Αττική"

  predicate DistinctCodes(pairs: seq<(string, string)>) {
    forall i, j :: 0 <= i < j < |pairs| ==> pairs[i].1 != pairs[j].1
  }

  /** The keys of the code map are exactly the codes of the pairs. */
  lemma {:induction false} LabelMapDomain(pairs: seq<(string, string)>)
    ensures forall i :: 0 <= i < |pairs| ==> pairs[i].1 in LabelMap(pairs)
    ensures forall c :: c in LabelMap(pairs) ==> exists i :: 0 <= i < |pairs| && pairs[i].1 == c
  {
    if pairs != [] {
      var u := pairs[..|pairs| - 1];
      LabelMapDomain(u);
      forall i | 0 <= i < |u|
        ensures pairs[i].1 in LabelMap(pairs)
      {
        assert pairs[i] == u[i];
      }
      forall c | c in LabelMap(pairs)
        ensures exists i :: 0 <= i < |pairs| && pairs[i].1 == c
      {
        if c != pairs[|pairs| - 1].1 {
          var i :| 0 <= i < |u| && u[i].1 == c;
          assert pairs[i] == u[i];
        }
      }
    }
  }

  lemma DistinctCodesPrefix(pairs: seq<(string, string)>)
    requires pairs != [] && DistinctCodes(pairs)
    ensures DistinctCodes(pairs[..|pairs| - 1])
    ensures pairs[|pairs| - 1].1 !in LabelMap(pairs[..|pairs| - 1])
  {
    var u := pairs[..|pairs| - 1];
    forall i, j | 0 <= i < j < |u|
      ensures u[i].1 != u[j].1
    {
      assert u[i] == pairs[i] && u[j] == pairs[j];
    }
    LabelMapDomain(u);
  }

  /** With pairwise distinct codes, the map has one entry per pair. */
  lemma {:induction false} LabelMapSize(pairs: seq<(string, string)>)
    requires DistinctCodes(pairs)
    ensures |LabelMap(pairs)| == |pairs|
  {
    if pairs != [] {
      DistinctCodesPrefix(pairs);
      LabelMapSize(pairs[..|pairs| - 1]);
    }
  }

  /** With pairwise distinct codes, each code maps to its own label. */
  lemma {:induction false} LabelMapLookup(pairs: seq<(string, string)>)
    requires DistinctCodes(pairs)
    ensures forall i :: 0 <= i < |pairs| ==> pairs[i].1 in LabelMap(pairs) && LabelMap(pairs)[pairs[i].1] == pairs[i].0
  {
    LabelMapDomain(pairs);
    if pairs != [] {
      var u := pairs[..|pairs| - 1];
      DistinctCodesPrefix(pairs);
      LabelMapLookup(u);
      forall i | 0 <= i < |u|
        ensures LabelMap(pairs)[pairs[i].1] == pairs[i].0
      {
        assert pairs[i] == u[i];
      }
    }
  }

  lemma ChoicesHaveDistinctCodes()
    ensures DistinctCodes(LocationChoices)
  {
    forall i, j | 0 <= i < j < |LocationChoices|
      ensures LocationChoices[i].1 != LocationChoices[j].1
    {
      var ci, cj := LocationChoices[i].1, LocationChoices[j].1;
      assert |ci| >= 6 && |cj| >= 6;
      if |ci| == |cj| {
        assert ci[6..] != cj[6..];
      }
    }
  }

  /**
    There are 13 regions with distinct codes: the code map has 13 entries and
    sends every code to its label, its keys are exactly the codes, and the
    scraper's default code names its default region.
  */
  lemma LocationTableSpec()
    ensures |LocationChoices| == 13
    ensures DistinctCodes(LocationChoices)
    ensures |LabelByValue()| == 13
    ensures forall i :: 0 <= i < 13 ==> LocationChoices[i].1 in LocationValues() && LabelByValue()[LocationChoices[i].1] == LocationChoices[i].0
    ensures forall c :: c in LocationValues() ==> exists i :: 0 <= i < 13 && LocationChoices[i].1 == c
    ensures DefaultLocationCode in LocationValues() && LabelByValue()[DefaultLocationCode] == DefaultLocationTitle
  {
    ChoicesHaveDistinctCodes();
    LabelMapDomain(LocationChoices);
    LabelMapSize(LocationChoices);
    LabelMapLookup(LocationChoices);
    assert LocationChoices[0] == (DefaultLocationTitle, DefaultLocationCode);
  }
}
