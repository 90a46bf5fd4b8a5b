/**
 * Concrete headers run through the mapping loop with every default accepted: the
 * ordinary case, and a header on which the renaming step yields two columns named DATA.
 */
module MappingExamples {
  import opened Wrappers
  import Text
  import opened ColumnMapping

  /** In round `f`, the first remaining option is the suggestion. */
  predicate SuggestsFirst(f: Field, opts: seq<string>) {
    opts != [] && (Matches(f, opts[0]) || forall j :: 0 <= j < |opts| ==> !Matches(f, opts[j]))
  }

  /** One round in which the user accepts the default and the first option is the suggestion. */
  lemma DefaultRound(f: Field, header: seq<string>, m: Mapping)
    requires SuggestsFirst(f, Unclaimed(header, m)) && Unclaimed(header, m)[0] != NONE_LABEL
    ensures Assign(f, header, m, AcceptDefault) == Ok(m[f := Unclaimed(header, m)[0]])
  {
    SuggestionIsFirstMatch(f, Unclaimed(header, m), 0);
    DefaultMapsToSuggestion(f, header, m);
  }

  /** In a duplicate-free header, no column after position `k` also appears before it. */
  lemma SuffixOutsidePrefix(h: seq<string>, k: nat)
    requires k <= |h| && Distinct(h)
    ensures forall c :: c in h[k..] ==> c !in h[..k]
  {
    forall c | c in h[k..]
      ensures c !in h[..k]
    {
      var i :| 0 <= i < |h[k..]| && h[k..][i] == c;
      assert h[k + i] == c;
    }
  }

  /** When exactly the first `k` columns of a duplicate-free header are claimed, the rest are offered. */
  lemma ClaimedPrefixOptions(h: seq<string>, m: Mapping, k: nat)
    requires k <= |h| && Distinct(h)
    requires forall c :: c in m.Values <==> c in h[..k]
    ensures Unclaimed(h, m) == h[k..]
  {
    assert h == h[..k] + h[k..];
    UnclaimedAppend(h[..k], h[k..], m);
    SuffixOutsidePrefix(h, k);
    UnclaimedAll(h[k..], m);
    UnclaimedNone(h[..k], m);
  }

  /** The mapping after `k` rounds that each took the next header column. */
  function Leading(h: seq<string>, k: nat): Mapping
    requires k <= 4 && k <= |h|
  {
    if k == 0 then map[] else Leading(h, k - 1)[FIELDS[k - 1] := h[k - 1]]
  }

  lemma {:induction false} LeadingShape(h: seq<string>, k: nat)
    requires k <= 4 && k <= |h|
    ensures forall f :: f in Leading(h, k) <==> f in FIELDS[..k]
    ensures forall i :: 0 <= i < k ==> Leading(h, k)[FIELDS[i]] == h[i]
    ensures forall c :: c in Leading(h, k).Values <==> c in h[..k]
  {
    if k > 0 {
      LeadingShape(h, k - 1);
      var m := Leading(h, k - 1);
      var f := FIELDS[k - 1];
      assert f !in FIELDS[..k - 1];
      assert FIELDS[..k] == FIELDS[..k - 1] + [f];
      assert h[..k] == h[..k - 1] + [h[k - 1]];
      forall c
        ensures c in m[f := h[k - 1]].Values <==> c in h[..k]
      {
        if c in m.Values {
          var g :| g in m && m[g] == c;
          assert m[f := h[k - 1]][g] == c;
        }
        if c in m[f := h[k - 1]].Values && c != h[k - 1] {
          var g :| g in m[f := h[k - 1]] && m[f := h[k - 1]][g] == c;
          assert m[g] in m.Values;
        }
        assert m[f := h[k - 1]][f] in m[f := h[k - 1]].Values;
      }
    }
  }

  /** From round `k` on, accepting every default takes the remaining leading columns. */
  lemma {:induction false} LeadingRounds(h: seq<string>, k: nat)
    requires k <= 4 && |h| >= 4 && Distinct(h)
    requires forall i :: 0 <= i < 4 ==> h[i] != NONE_LABEL
    requires forall i :: k <= i < 4 ==> SuggestsFirst(FIELDS[i], h[i..])
    ensures AssignAll(FIELDS[k..], h, Leading(h, k), AcceptDefault) == Ok(Leading(h, 4))
    decreases 4 - k
  {
    if k < 4 {
      LeadingShape(h, k);
      ClaimedPrefixOptions(h, Leading(h, k), k);
      DefaultRound(FIELDS[k], h, Leading(h, k));
      assert FIELDS[k..][1..] == FIELDS[k + 1..];
      AssignAllStep(FIELDS[k..], h, Leading(h, k), AcceptDefault, Leading(h, k + 1));
      LeadingRounds(h, k + 1);
    }
  }

  lemma LeadingFour(h: seq<string>)
    requires |h| >= 4
    ensures Leading(h, 4) == map[DATA := h[0], TMEDIA := h[1], TMIN := h[2], TMAX := h[3]]
  {
    assert Leading(h, 1) == map[DATA := h[0]];
    assert Leading(h, 2) == map[DATA := h[0], TMEDIA := h[1]];
    assert Leading(h, 3) == map[DATA := h[0], TMEDIA := h[1], TMIN := h[2]];
  }

  /**
   * When, round after round, the suggestion is the next header column, accepting every
   * default maps the four fields to the first four columns, in order.
   */
  lemma DefaultsTakeLeadingColumns(h: seq<string>)
    requires |h| >= 4 && Distinct(h)
    requires forall i :: 0 <= i < 4 ==> h[i] != NONE_LABEL
    requires forall k :: 0 <= k < 4 ==> SuggestsFirst(FIELDS[k], h[k..])
    ensures ChooseColumns(h, AcceptDefault) == Ok(map[DATA := h[0], TMEDIA := h[1], TMIN := h[2], TMAX := h[3]])
  {
    LeadingRounds(h, 0);
    assert FIELDS[0..] == FIELDS;
    LeadingFour(h);
  }

  /** A column written in capitals that lacks one of the letters of a field's name does not match it. */
  lemma CapitalsMissingLetter(f: Field, column: string, x: char)
    requires forall i :: 0 <= i < |column| ==> !('a' <= column[i] <= 'z')
    requires x in Name(f) && x !in column
    ensures !Matches(f, column)
  {
    Text.UpperOfUpperCase(column);
    Text.MissingCharNotContained(column, Name(f), x);
  }

  /** A column whose upper-cased name is a field's name matches that field. */
  lemma OwnNameMatches(f: Field, column: string)
    requires Text.Upper(column) == Name(f)
    ensures Matches(f, column)
  {
    assert Name(f)[..|Name(f)|] == Name(f);
  }

  lemma UpperOfWord(w: string, u: string)
    requires |w| == |u| && forall i :: 0 <= i < |w| ==> Text.UpperChar(w[i]) == u[i]
    ensures Text.Upper(w) == u
  {
  }

  /** The temperature columns of the usual Italian header each match their own field. */
  lemma TemperatureColumnsMatch(h: seq<string>)
    requires |h| == 4 && h[1] == "Tmedia" && h[2] == "Tmin" && h[3] == "Tmax"
    ensures SuggestsFirst(TMEDIA, h[1..]) && SuggestsFirst(TMIN, h[2..]) && SuggestsFirst(TMAX, h[3..])
  {
    UpperOfWord("Tmedia", "TMEDIA");
    UpperOfWord("Tmin", "TMIN");
    UpperOfWord("Tmax", "TMAX");
    OwnNameMatches(TMEDIA, h[1]);
    OwnNameMatches(TMIN, h[2]);
    OwnNameMatches(TMAX, h[3]);
    assert h[1..][0] == h[1] && h[2..][0] == h[2] && h[3..][0] == h[3];
  }

  /** A typical header, in mixed case: every field finds its own column. */
  lemma TypicalHeaderDefaults(h: seq<string>)
    requires h == ["Data", "Tmedia", "Tmin", "Tmax"]
    ensures ChooseColumns(h, AcceptDefault) == Ok(map[DATA := "Data", TMEDIA := "Tmedia", TMIN := "Tmin", TMAX := "Tmax"])
  {
    UpperOfWord("Data", "DATA");
    OwnNameMatches(DATA, h[0]);
    assert h[0..][0] == h[0];
    TemperatureColumnsMatch(h);
    DefaultsTakeLeadingColumns(h);
  }

  /** No column of an Italian header with "Giorno" for the date is named like DATA. */
  lemma GiornoHeaderNoDate(h: seq<string>)
    requires h == ["Giorno", "Tmedia", "Tmin", "Tmax"]
    ensures forall j :: 0 <= j < |h| ==> !Matches(DATA, h[j])
  {
    UpperOfWord("Giorno", "GIORNO");
    UpperOfWord("Tmedia", "TMEDIA");
    UpperOfWord("Tmin", "TMIN");
    UpperOfWord("Tmax", "TMAX");
    Text.MissingCharNotContained("GIORNO", "DATA", 'D');
    Text.MissingCharNotContained("TMIN", "DATA", 'D');
    Text.MissingCharNotContained("TMAX", "DATA", 'D');
    assert !Text.Contains("DIA", "DATA");
    assert !Text.Contains("EDIA", "DATA");
    assert !Text.Contains("MEDIA", "DATA");
    assert "TMEDIA"[1..] == "MEDIA" && "MEDIA"[1..] == "EDIA" && "EDIA"[1..] == "DIA";
  }

  /**
   * With "Giorno" for the date, DATA falls back to the first column, and the
   * temperature fields find their own columns.
   */
  lemma GiornoHeaderDefaults(h: seq<string>)
    requires h == ["Giorno", "Tmedia", "Tmin", "Tmax"]
    ensures ChooseColumns(h, AcceptDefault) == Ok(map[DATA := "Giorno", TMEDIA := "Tmedia", TMIN := "Tmin", TMAX := "Tmax"])
  {
    GiornoHeaderNoDate(h);
    assert h[0..] == h;
    TemperatureColumnsMatch(h);
    DefaultsTakeLeadingColumns(h);
  }

  const DUPLICATE_HEADER: seq<string> := ["DATA_MISURA", "TEMP", "UMIDITA", "VENTO", "DATA"]

  /** The last four columns of the header below are matched by none of the temperature fields. */
  lemma DuplicateHeaderNoTemperatureNames()
    ensures !Matches(TMEDIA, "TEMP") && !Matches(TMEDIA, "UMIDITA") && !Matches(TMEDIA, "VENTO") && !Matches(TMEDIA, "DATA")
    ensures !Matches(TMIN, "UMIDITA") && !Matches(TMIN, "VENTO") && !Matches(TMIN, "DATA")
    ensures !Matches(TMAX, "VENTO") && !Matches(TMAX, "DATA")
  {
    CapitalsMissingLetter(TMEDIA, "TEMP", 'D');
    CapitalsMissingLetter(TMEDIA, "UMIDITA", 'E');
    CapitalsMissingLetter(TMEDIA, "VENTO", 'M');
    CapitalsMissingLetter(TMEDIA, "DATA", 'M');
    CapitalsMissingLetter(TMIN, "UMIDITA", 'N');
    CapitalsMissingLetter(TMIN, "VENTO", 'M');
    CapitalsMissingLetter(TMIN, "DATA", 'M');
    CapitalsMissingLetter(TMAX, "VENTO", 'M');
    CapitalsMissingLetter(TMAX, "DATA", 'M');
  }

  lemma DuplicateHeaderMeanRound(h: seq<string>)
    requires h == DUPLICATE_HEADER
    ensures SuggestsFirst(TMEDIA, h[1..])
  {
    DuplicateHeaderNoTemperatureNames();
    assert h[1..] == ["TEMP", "UMIDITA", "VENTO", "DATA"];
  }

  lemma DuplicateHeaderExtremeRounds(h: seq<string>)
    requires h == DUPLICATE_HEADER
    ensures SuggestsFirst(TMIN, h[2..]) && SuggestsFirst(TMAX, h[3..])
  {
    DuplicateHeaderNoTemperatureNames();
    assert h[2..] == ["UMIDITA", "VENTO", "DATA"];
    assert h[3..] == ["VENTO", "DATA"];
  }

  lemma DuplicateHeaderDistinct(h: seq<string>)
    requires h == DUPLICATE_HEADER
    ensures Distinct(h) && forall i :: 0 <= i < 4 ==> h[i] != NONE_LABEL
  {
  }

  /** With every default accepted, the fields take the first four columns of the header. */
  lemma DuplicateHeaderDefaults(h: seq<string>)
    requires h == DUPLICATE_HEADER
    ensures ChooseColumns(h, AcceptDefault) == Ok(map[DATA := "DATA_MISURA", TMEDIA := "TEMP", TMIN := "UMIDITA", TMAX := "VENTO"])
  {
    assert Text.Upper(h[0])[..4] == "DATA";
    assert Matches(FIELDS[0], h[0..][0]);
    DuplicateHeaderMeanRound(h);
    DuplicateHeaderExtremeRounds(h);
    DuplicateHeaderDistinct(h);
    DefaultsTakeLeadingColumns(h);
  }

  lemma DuplicateHeaderRenamed(h: seq<string>, m: Mapping)
    requires h == DUPLICATE_HEADER
    requires m == map[DATA := "DATA_MISURA", TMEDIA := "TEMP", TMIN := "UMIDITA", TMAX := "VENTO"]
    ensures Renamed(h, m) == ["DATA", "TMEDIA", "TMIN", "TMAX", "DATA"]
  {
  }

  /**
   * The header of the finding: no column is named like TMEDIA, TMIN or TMAX, so the
   * defaults take the next columns in order, and the unchosen last column keeps the
   * name DATA, which the renaming also gives to the first one.
   */
  lemma RenamedCanDuplicateData(h: seq<string>, m: Mapping)
    requires h == DUPLICATE_HEADER
    requires m == map[DATA := "DATA_MISURA", TMEDIA := "TEMP", TMIN := "UMIDITA", TMAX := "VENTO"]
    ensures ChooseColumns(h, AcceptDefault) == Ok(m)
    ensures Renamed(h, m)[0] == Renamed(h, m)[4] == Name(DATA)
  {
    DuplicateHeaderDefaults(h);
    DuplicateHeaderRenamed(h, m);
  }
}
