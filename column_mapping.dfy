/**
 * The interactive column mapping: for the canonical fields DATA, TMEDIA, TMIN and TMAX,
 * taken in that order, the columns of the uploaded header not yet claimed are offered,
 * one of them is suggested by a case-insensitive name match, and the user's choice is
 * recorded. DATA and TMEDIA are required; TMIN and TMAX may be left unmapped.
 */
module ColumnMapping {
  import opened Wrappers
  import Text
  import opened Subsequences

  datatype Field = DATA | TMEDIA | TMIN | TMAX

  /** The fixed order in which the fields are mapped. */
  const FIELDS: seq<Field> := [DATA, TMEDIA, TMIN, TMAX]

  /** The label of the "no column" entry offered for the optional fields. */
  const NONE_LABEL: string := "-- Nessuna --"

  function Name(f: Field): string {
    match f
    case DATA => "DATA"
    case TMEDIA => "TMEDIA"
    case TMIN => "TMIN"
    case TMAX => "TMAX"
  }

  predicate Optional(f: Field) {
    f == TMIN || f == TMAX
  }

  /** Canonical field to the header column chosen for it. */
  type Mapping = map<Field, string>

  /**
   * The selection widget: given the field, the labels it offers and the index selected by
   * default, it returns the label the user picked.
   */
  type Selector = (Field, seq<string>, nat) -> string

  /** A selection widget can only return one of the labels it offers. */
  ghost predicate SelectsOffered(select: Selector) {
    forall f: Field, offered: seq<string>, d: nat :: d < |offered| ==> select(f, offered, d) in offered
  }

  /** The user who accepts every default. */
  function AcceptDefault(f: Field, offered: seq<string>, d: nat): string {
    if d < |offered| then offered[d] else NONE_LABEL
  }

  datatype MappingError =
    | NoCandidates(field: Field)  // no unclaimed column is left for a required field
    | RequiredNotSelected         // DATA or TMEDIA ended up unmapped

  predicate Injective(m: Mapping) {
    forall f, g :: f in m && g in m && f != g ==> m[f] != m[g]
  }

  /** What a finished mapping guarantees: one column per field, each a real header column. */
  predicate Sound(header: seq<string>, m: Mapping) {
    Injective(m) && forall f :: f in m ==> m[f] in header && m[f] != NONE_LABEL
  }

  predicate HasRequired(m: Mapping) {
    DATA in m && TMEDIA in m
  }

  // ---- One round of the mapping loop ----

  /** The header columns not yet chosen for an earlier field, in header order. */
  function Unclaimed(header: seq<string>, m: Mapping): (opts: seq<string>)
    ensures |opts| <= |header|
  {
    if header == [] then []
    else (if header[0] in m.Values then [] else [header[0]]) + Unclaimed(header[1..], m)
  }

  /** The options are exactly the header columns not chosen yet. */
  lemma {:induction false} UnclaimedMembers(header: seq<string>, m: Mapping)
    ensures forall c :: c in Unclaimed(header, m) <==> c in header && c !in m.Values
  {
    if header != [] {
      UnclaimedMembers(header[1..], m);
      assert forall c :: c in header <==> c == header[0] || c in header[1..];
    }
  }

  /** The options keep the header's relative order. */
  lemma {:induction false} UnclaimedAppend(a: seq<string>, b: seq<string>, m: Mapping)
    ensures Unclaimed(a + b, m) == Unclaimed(a, m) + Unclaimed(b, m)
  {
    if a == [] {
      assert a + b == b;
    } else {
      assert (a + b)[0] == a[0];
      assert (a + b)[1..] == a[1..] + b;
      UnclaimedAppend(a[1..], b, m);
    }
  }

  /** With nothing in `s` claimed, every column of `s` is offered. */
  lemma UnclaimedAll(s: seq<string>, m: Mapping)
    requires forall c :: c in s ==> c !in m.Values
    ensures Unclaimed(s, m) == s
  {
  }

  /** With everything in `s` claimed, nothing of `s` is offered. */
  lemma UnclaimedNone(s: seq<string>, m: Mapping)
    requires forall c :: c in s ==> c in m.Values
    ensures Unclaimed(s, m) == []
  {
  }

  /** Whether a column's upper-cased name contains the field's name. */
  predicate Matches(f: Field, column: string) {
    Text.Contains(Text.Upper(column), Name(f))
  }

  /** The index of the first option that matches, or |opts| when none does. */
  function FirstMatch(f: Field, opts: seq<string>): (k: nat)
    ensures k <= |opts|
    ensures k < |opts| ==> Matches(f, opts[k])
    ensures forall j :: 0 <= j < k ==> !Matches(f, opts[j])
  {
    if opts == [] then 0
    else if Matches(f, opts[0]) then 0
    else 1 + FirstMatch(f, opts[1..])
  }

  /**
   * The suggested column: the first option whose upper-cased name contains the field's
   * name, or else the first option; nothing when there are no options.
   */
  function Suggestion(f: Field, opts: seq<string>): (s: Option<string>)
    ensures s.None? <==> opts == []
    ensures s.Some? ==> s.value in opts
  {
    if opts == [] then None
    else
      var k := FirstMatch(f, opts);
      if k < |opts| then Some(opts[k]) else Some(opts[0])
  }

  /**
   * The suggestion is the first option, in header order, whose upper-cased name contains
   * the field's name; when no option matches, it is the first option.
   */
  lemma SuggestionIsFirstMatch(f: Field, opts: seq<string>, k: nat)
    requires k < |opts|
    ensures Matches(f, opts[k]) && (forall j :: 0 <= j < k ==> !Matches(f, opts[j])) ==>
      Suggestion(f, opts) == Some(opts[k])
    ensures (forall j :: 0 <= j < |opts| ==> !Matches(f, opts[j])) ==> Suggestion(f, opts) == Some(opts[0])
  {
    var first := FirstMatch(f, opts);
    if Matches(f, opts[k]) && (forall j :: 0 <= j < k ==> !Matches(f, opts[j])) {
      assert first <= k;
      assert first == k;
    }
  }

  /** `list.index`: the position of the first occurrence of `x`. */
  function IndexOf(xs: seq<string>, x: string): (i: nat)
    requires x in xs
    ensures i < |xs| && xs[i] == x
    ensures forall j :: 0 <= j < i ==> xs[j] != x
  {
    if xs[0] == x then 0 else 1 + IndexOf(xs[1..], x)
  }

  /** The labels the widget offers: the "no column" entry first, for the optional fields only. */
  function Offered(f: Field, opts: seq<string>): (o: seq<string>)
    ensures |o| == |opts| + (if Optional(f) then 1 else 0)
    ensures Optional(f) ==> o[0] == NONE_LABEL
    ensures forall c :: c in o <==> c in opts || (Optional(f) && c == NONE_LABEL)
  {
    if Optional(f) then [NONE_LABEL] + opts else opts
  }

  /**
   * The widget's default index. For the optional fields it is shifted past the
   * "no column" entry, so the default is the suggested column, never "no column".
   */
  function DefaultIndex(f: Field, opts: seq<string>): (d: nat)
    requires opts != []
    ensures d < |Offered(f, opts)|
    ensures Offered(f, opts)[d] == Suggestion(f, opts).value
    ensures Optional(f) ==> d >= 1
  {
    var s := Suggestion(f, opts).value;
    var i := IndexOf(opts, s);
    if Optional(f) then
      assert ([NONE_LABEL] + opts)[i + 1] == opts[i];
      i + 1
    else i
  }

  /** One iteration of the mapping loop, for field `f`, given the mapping built so far. */
  function Assign(f: Field, header: seq<string>, m: Mapping, select: Selector): (r: Result<Mapping, MappingError>)
    ensures r.Err? <==> !Optional(f) && Unclaimed(header, m) == []
    ensures r.Err? ==> r.error == NoCandidates(f)
    ensures r.Ok? ==> r.value == m || (f in r.value && r.value == m[f := r.value[f]])
    ensures Optional(f) && Unclaimed(header, m) == [] ==> r == Ok(m)
    ensures Unclaimed(header, m) != [] ==>
      var c := select(f, Offered(f, Unclaimed(header, m)), DefaultIndex(f, Unclaimed(header, m)));
      r == Ok(if c == NONE_LABEL then m else m[f := c])
  {
    var opts := Unclaimed(header, m);
    if |opts| > 0 then
      var chosen := select(f, Offered(f, opts), DefaultIndex(f, opts));
      if chosen != NONE_LABEL then Ok(m[f := chosen]) else Ok(m)
    else if Optional(f) then Ok(m)
    else Err(NoCandidates(f))
  }

  /** A choice offered to the user never reuses a claimed column, so each round keeps the mapping sound. */
  lemma AssignSound(f: Field, header: seq<string>, m: Mapping, select: Selector)
    requires SelectsOffered(select)
    requires Sound(header, m)
    ensures Assign(f, header, m, select).Ok? ==> Sound(header, Assign(f, header, m, select).value)
  {
    var opts := Unclaimed(header, m);
    UnclaimedMembers(header, m);
    if |opts| > 0 {
      var offered := Offered(f, opts);
      var chosen := select(f, offered, DefaultIndex(f, opts));
      assert chosen in offered;
      if chosen != NONE_LABEL {
        assert chosen in opts;
        var m' := m[f := chosen];
        forall g, h | g in m' && h in m' && g != h
          ensures m'[g] != m'[h]
        {
          if g != f && h != f {
          } else if g == f {
            assert m[h] in m.Values;
          } else {
            assert m[g] in m.Values;
          }
        }
      }
    }
  }

  // ---- The whole loop ----

  /** The mapping loop over `fields`, as a left fold; it stops at the first error. */
  function AssignAll(fields: seq<Field>, header: seq<string>, m: Mapping, select: Selector): (r: Result<Mapping, MappingError>)
    ensures r.Ok? ==> m.Keys <= r.value.Keys
    ensures r.Ok? ==> forall g :: g in r.value ==> g in m || g in fields
    ensures r.Err? ==> exists i :: 0 <= i < |fields| && r.error == NoCandidates(fields[i])
    decreases |fields|
  {
    if fields == [] then Ok(m)
    else
      match Assign(fields[0], header, m, select)
      case Err(e) => Err(e)
      case Ok(m') => AssignAll(fields[1..], header, m', select)
  }

  lemma AssignAllStep(fields: seq<Field>, header: seq<string>, m: Mapping, select: Selector, m': Mapping)
    requires fields != [] && Assign(fields[0], header, m, select) == Ok(m')
    ensures AssignAll(fields, header, m, select) == AssignAll(fields[1..], header, m', select)
  {
  }

  /** The mapping the user ends up with, or the error that stops the run. */
  function ChooseColumns(header: seq<string>, select: Selector): (r: Result<Mapping, MappingError>)
    ensures r.Ok? ==> DATA in r.value && TMEDIA in r.value
    ensures r.Err? ==> r.error == RequiredNotSelected || r.error.NoCandidates?
  {
    match AssignAll(FIELDS, header, map[], select)
    case Err(e) => Err(e)
    case Ok(m) => if DATA !in m || TMEDIA !in m then Err(RequiredNotSelected) else Ok(m)
  }

  lemma {:induction false} AssignAllSound(fields: seq<Field>, header: seq<string>, m: Mapping, select: Selector)
    requires SelectsOffered(select)
    requires Sound(header, m)
    ensures AssignAll(fields, header, m, select).Ok? ==> Sound(header, AssignAll(fields, header, m, select).value)
    ensures AssignAll(fields, header, m, select).Err? ==>
      exists i :: 0 <= i < |fields| && AssignAll(fields, header, m, select).error == NoCandidates(fields[i]) && !Optional(fields[i])
    decreases |fields|
  {
    if fields != [] {
      AssignSound(fields[0], header, m, select);
      match Assign(fields[0], header, m, select)
      case Err(e) =>
        assert !Optional(fields[0]);
      case Ok(m') =>
        AssignAllSound(fields[1..], header, m', select);
        if AssignAll(fields, header, m, select).Err? {
          var i :| 0 <= i < |fields[1..]| && AssignAll(fields, header, m, select).error == NoCandidates(fields[1..][i]) && !Optional(fields[1..][i]);
          assert fields[1..][i] == fields[i + 1];
        }
    }
  }

  /**
   * A successful mapping never uses one column for two fields, always maps DATA and
   * TMEDIA, and only maps real header columns.
   */
  lemma ChooseColumnsSound(header: seq<string>, select: Selector)
    requires SelectsOffered(select)
    ensures ChooseColumns(header, select).Ok? ==>
      Sound(header, ChooseColumns(header, select).value) && HasRequired(ChooseColumns(header, select).value)
  {
    AssignAllSound(FIELDS, header, map[], select);
  }

  /**
   * An optional field for which the user picks "-- Nessuna --" whenever it is offered
   * never enters the mapping.
   */
  lemma {:induction false} DeclinedStaysUnmapped(fields: seq<Field>, header: seq<string>, m: Mapping, select: Selector, f: Field)
    requires Optional(f) && f !in m
    requires forall offered: seq<string>, d: nat :: NONE_LABEL in offered ==> select(f, offered, d) == NONE_LABEL
    ensures AssignAll(fields, header, m, select).Ok? ==> f !in AssignAll(fields, header, m, select).value
    decreases |fields|
  {
    if fields != [] {
      match Assign(fields[0], header, m, select)
      case Err(_) =>
      case Ok(m') =>
        if fields[0] == f && Unclaimed(header, m) != [] {
          assert NONE_LABEL in Offered(f, Unclaimed(header, m));
        }
        assert f !in m';
        DeclinedStaysUnmapped(fields[1..], header, m', select, f);
    }
  }

  /**
   * Declining TMIN (or TMAX) whenever "-- Nessuna --" is offered leaves it out of the
   * final mapping, which is still sound and maps DATA and TMEDIA.
   */
  lemma DeclinedFieldUnmapped(header: seq<string>, select: Selector, f: Field)
    requires SelectsOffered(select)
    requires Optional(f)
    requires forall offered: seq<string>, d: nat :: NONE_LABEL in offered ==> select(f, offered, d) == NONE_LABEL
    ensures ChooseColumns(header, select).Ok? ==>
      var m := ChooseColumns(header, select).value;
      Sound(header, m) && HasRequired(m) && f !in m
  {
    ChooseColumnsSound(header, select);
    DeclinedStaysUnmapped(FIELDS, header, map[], select, f);
  }

  /** Running out of columns stops the run only for a required field. */
  lemma NoCandidatesOnlyForRequired(header: seq<string>, select: Selector, f: Field)
    requires SelectsOffered(select)
    requires ChooseColumns(header, select) == Err(NoCandidates(f))
    ensures f == DATA || f == TMEDIA
  {
    AssignAllSound(FIELDS, header, map[], select);
  }

  /** An empty header stops the run at DATA. */
  lemma EmptyHeaderMissesData(select: Selector)
    ensures ChooseColumns([], select) == Err(NoCandidates(DATA))
  {
    assert Unclaimed([], map[]) == [];
  }

  /** A header with a single distinct column (other than the "no column" label) stops the run at TMEDIA. */
  lemma OneColumnMissesMean(header: seq<string>, select: Selector)
    requires SelectsOffered(select)
    requires header != [] && header[0] != NONE_LABEL
    requires forall i :: 0 <= i < |header| ==> header[i] == header[0]
    ensures ChooseColumns(header, select) == Err(NoCandidates(TMEDIA))
  {
    var c := header[0];
    var opts := Unclaimed(header, map[]);
    UnclaimedMembers(header, map[]);
    assert c in opts;
    assert forall x :: x in opts ==> x == c;
    var chosen := select(DATA, Offered(DATA, opts), DefaultIndex(DATA, opts));
    assert chosen in opts;
    assert chosen == c;
    var m := map[DATA := chosen];
    assert Assign(DATA, header, map[], select) == Ok(m);
    assert m[DATA] == c && c in m.Values;
    UnclaimedMembers(header, m);
    assert forall x :: x in Unclaimed(header, m) ==> false;
    assert Assign(TMEDIA, header, m, select) == Err(NoCandidates(TMEDIA));
    assert FIELDS[1..][0] == TMEDIA;
  }

  /** A mapping that maps a single field has that field's column as its only value. */
  lemma SingleValue(f: Field, c: string, x: string)
    ensures x in map[f := c].Values <==> x == c
  {
    var m := map[f := c];
    assert m[f] == c;
  }

  /** Optional fields never stop the run. */
  lemma {:induction false} OptionalNeverStops(fields: seq<Field>, header: seq<string>, m: Mapping, select: Selector)
    requires forall i :: 0 <= i < |fields| ==> Optional(fields[i])
    ensures AssignAll(fields, header, m, select).Ok?
    decreases |fields|
  {
    if fields != [] {
      OptionalNeverStops(fields[1..], header, Assign(fields[0], header, m, select).value, select);
    }
  }

  /** A column of the header that is not chosen yet is offered, so the round goes ahead. */
  lemma OfferedColumnProceeds(f: Field, header: seq<string>, m: Mapping, select: Selector, c: string)
    requires c in header && c !in m.Values
    ensures Assign(f, header, m, select).Ok?
  {
    UnclaimedMembers(header, m);
    assert c in Unclaimed(header, m);
  }

  /** After the DATA round, one of two different columns is still free for TMEDIA. */
  lemma MeanRoundProceeds(header: seq<string>, m1: Mapping, select: Selector, i: nat, j: nat)
    requires i < |header| && j < |header| && header[i] != header[j]
    requires m1.Keys <= {DATA}
    ensures Assign(TMEDIA, header, m1, select).Ok?
  {
    if DATA in m1 {
      var k := if header[i] != m1[DATA] then i else j;
      assert m1 == map[DATA := m1[DATA]];
      SingleValue(DATA, m1[DATA], header[k]);
      OfferedColumnProceeds(TMEDIA, header, m1, select, header[k]);
    } else {
      assert m1 == map[];
      OfferedColumnProceeds(TMEDIA, header, m1, select, header[i]);
    }
  }

  /** With two different columns in the header, no field ever runs out of columns. */
  lemma TwoColumnsNeverMiss(header: seq<string>, select: Selector, i: nat, j: nat)
    requires i < |header| && j < |header| && header[i] != header[j]
    ensures !ChooseColumns(header, select).Err? || ChooseColumns(header, select) == Err(RequiredNotSelected)
  {
    var m0: Mapping := map[];
    OfferedColumnProceeds(DATA, header, m0, select, header[i]);
    var m1 := Assign(DATA, header, m0, select).value;
    MeanRoundProceeds(header, m1, select, i, j);
    var m2 := Assign(TMEDIA, header, m1, select).value;
    assert FIELDS[1..][0] == TMEDIA && FIELDS[1..][1..] == [TMIN, TMAX];
    AssignAllStep(FIELDS, header, m0, select, m1);
    AssignAllStep(FIELDS[1..], header, m1, select, m2);
    OptionalNeverStops([TMIN, TMAX], header, m2, select);
  }

  /**
   * Accepting the default maps the field to the suggested column; for an optional field
   * this is because the `+ 1` skips the "no column" entry. The exception is a column that
   * is itself named like that entry.
   */
  lemma DefaultMapsToSuggestion(f: Field, header: seq<string>, m: Mapping)
    requires Unclaimed(header, m) != []
    requires Suggestion(f, Unclaimed(header, m)).value != NONE_LABEL
    ensures Assign(f, header, m, AcceptDefault) == Ok(m[f := Suggestion(f, Unclaimed(header, m)).value])
  {
  }

  lemma AcceptDefaultSelectsOffered()
    ensures SelectsOffered(AcceptDefault)
  {
  }

  /** The user who declines TMIN whenever it can be declined and otherwise accepts the default. */
  function DeclineTmin(f: Field, offered: seq<string>, d: nat): string {
    if f == TMIN && NONE_LABEL in offered then NONE_LABEL else AcceptDefault(f, offered, d)
  }

  /** Such a user picks only offered labels, so DeclinedFieldUnmapped applies to a real widget user. */
  lemma DeclineTminSelectsOffered()
    ensures SelectsOffered(DeclineTmin)
    ensures forall offered: seq<string>, d: nat :: NONE_LABEL in offered ==> DeclineTmin(TMIN, offered, d) == NONE_LABEL
  {
  }

  // ---- Renaming the chosen columns to the canonical names ----

  /**
   * The new name of column `c` under `rename_dict = {v: k for k, v in col_mapping.items()}`:
   * the field it was chosen for (the later field if two shared it), otherwise `c` itself.
   */
  function RenameColumn(c: string, m: Mapping): (r: string)
    ensures c in m.Values ==> IsCanonicalName(r)
    ensures r != c ==> IsCanonicalName(r) && c in m.Values
  {
    if TMAX in m && m[TMAX] == c then Name(TMAX)
    else if TMIN in m && m[TMIN] == c then Name(TMIN)
    else if TMEDIA in m && m[TMEDIA] == c then Name(TMEDIA)
    else if DATA in m && m[DATA] == c then Name(DATA)
    else
      assert c !in m.Values by {
        if c in m.Values {
          ValueOfSomeField(m, c);
        }
      }
      c
  }

  /** A column in the mapping's values is the column of one of the four fields. */
  lemma ValueOfSomeField(m: Mapping, c: string)
    requires c in m.Values
    ensures (DATA in m && m[DATA] == c) || (TMEDIA in m && m[TMEDIA] == c)
         || (TMIN in m && m[TMIN] == c) || (TMAX in m && m[TMAX] == c)
  {
    var f :| f in m && m[f] == c;
    match f
    case DATA =>
    case TMEDIA =>
    case TMIN =>
    case TMAX =>
  }

  function Renamed(header: seq<string>, m: Mapping): (r: seq<string>)
    ensures |r| == |header|
    ensures forall i :: 0 <= i < |header| && header[i] !in m.Values ==> r[i] == header[i]
    ensures forall i :: 0 <= i < |header| && header[i] in m.Values ==> IsCanonicalName(r[i])
  {
    seq(|header|, i requires 0 <= i < |header| => RenameColumn(header[i], m))
  }

  /** Under an injective mapping a chosen column takes its field's name and every other column keeps its own. */
  lemma RenameColumnSpec(c: string, m: Mapping)
    requires Injective(m)
    ensures forall f :: f in m && m[f] == c ==> RenameColumn(c, m) == Name(f)
    ensures c !in m.Values ==> RenameColumn(c, m) == c
  {
    if c !in m.Values {
      forall f | f in m
        ensures m[f] != c
      {
        assert m[f] in m.Values;
      }
    }
  }

  predicate IsCanonicalName(c: string) {
    c == "DATA" || c == "TMEDIA" || c == "TMIN" || c == "TMAX"
  }

  predicate Distinct(s: seq<string>) {
    forall i, j :: 0 <= i < j < |s| ==> s[i] != s[j]
  }

  /** The columns kept for renaming: chosen columns, and unchosen ones whose name is not canonical. */
  function KeptColumns(header: seq<string>, m: Mapping): (kept: seq<string>)
    ensures forall c :: c in kept <==> c in header && (c in m.Values || !IsCanonicalName(c))
    ensures Distinct(header) ==> Distinct(kept)
    ensures IsSubsequence(kept, header)
  {
    if header == [] then []
    else
      var rest := KeptColumns(header[1..], m);
      assert header == [header[0]] + header[1..];
      if header[0] in m.Values || !IsCanonicalName(header[0]) then
        KeepHead(header[0], rest, header[1..]);
        [header[0]] + rest
      else
        DropHead(header[0], rest, header[1..]);
        rest
  }

  /** Renaming that first drops unchosen columns carrying a canonical name. */
  function RenamedSafely(header: seq<string>, m: Mapping): seq<string> {
    Renamed(KeptColumns(header, m), m)
  }

  /**
   * A kept column is renamed to a canonical name exactly when it was chosen, and then to
   * the name of the one field it was chosen for.
   */
  lemma RenameKeptColumn(c: string, m: Mapping)
    requires Injective(m)
    requires c in m.Values || !IsCanonicalName(c)
    ensures IsCanonicalName(RenameColumn(c, m)) <==> c in m.Values
    ensures forall f :: f in m && m[f] == c <==> c in m.Values && RenameColumn(c, m) == Name(f)
  {
    RenameColumnSpec(c, m);
    if c in m.Values {
      var g :| g in m && m[g] == c;
      assert RenameColumn(c, m) == Name(g);
    }
  }

  /** After the corrected renaming no canonical name labels two columns. */
  lemma RenamedSafelyNoDuplicates(header: seq<string>, m: Mapping)
    requires Distinct(header) && Sound(header, m)
    ensures var r := RenamedSafely(header, m);
      forall i, j :: 0 <= i < j < |r| && IsCanonicalName(r[i]) ==> r[i] != r[j]
  {
    var kept := KeptColumns(header, m);
    var r := RenamedSafely(header, m);
    forall i, j | 0 <= i < j < |r| && IsCanonicalName(r[i])
      ensures r[i] != r[j]
    {
      assert kept[i] in kept && kept[j] in kept;
      RenameKeptColumn(kept[i], m);
      RenameKeptColumn(kept[j], m);
      var f :| f in m && m[f] == kept[i];
      assert r[i] == Name(f);
    }
  }

  /** After the corrected renaming a canonical name is present exactly for the mapped fields. */
  lemma RenamedSafelyNames(header: seq<string>, m: Mapping)
    requires Sound(header, m)
    ensures forall f :: Name(f) in RenamedSafely(header, m) <==> f in m
  {
    var kept := KeptColumns(header, m);
    var r := RenamedSafely(header, m);
    forall f
      ensures Name(f) in r <==> f in m
    {
      if f in m {
        assert m[f] in m.Values;
        var k :| 0 <= k < |kept| && kept[k] == m[f];
        RenameKeptColumn(kept[k], m);
        assert r[k] == Name(f);
      }
      if Name(f) in r {
        var k :| 0 <= k < |r| && r[k] == Name(f);
        assert kept[k] in kept;
        RenameKeptColumn(kept[k], m);
      }
    }
  }

  /**
   * After the corrected renaming every canonical name names at most one column, and it
   * is present precisely for the mapped fields.
   */
  lemma RenamedSafelyUnique(header: seq<string>, m: Mapping)
    requires Distinct(header) && Sound(header, m)
    ensures var r := RenamedSafely(header, m);
      forall i, j :: 0 <= i < j < |r| && IsCanonicalName(r[i]) ==> r[i] != r[j]
    ensures forall f :: Name(f) in RenamedSafely(header, m) <==> f in m
  {
    RenamedSafelyNoDuplicates(header, m);
    RenamedSafelyNames(header, m);
  }

  // ---- The imperative loop ----

  /**
   * The mapping loop as the script runs it: `colMapping` is updated in place, field by
   * field, and the run stops at the first required field without candidates.
   */
  method MapColumns(header: seq<string>, select: Selector) returns (r: Result<Mapping, MappingError>)
    requires SelectsOffered(select)
    ensures r == ChooseColumns(header, select)
    ensures r.Ok? ==> Sound(header, r.value) && HasRequired(r.value)
  {
    var colMapping: Mapping := map[];
    for i := 0 to |FIELDS|
      invariant AssignAll(FIELDS[i..], header, colMapping, select) == AssignAll(FIELDS, header, map[], select)
      invariant Sound(header, colMapping)
    {
      assert FIELDS[i..][1..] == FIELDS[i + 1..];
      var field := FIELDS[i];
      AssignSound(field, header, colMapping, select);
      var options := Unclaimed(header, colMapping);
      if |options| > 0 {
        var chosen := select(field, Offered(field, options), DefaultIndex(field, options));
        if chosen != NONE_LABEL {
          colMapping := colMapping[field := chosen];
        }
      } else if !Optional(field) {
        return Err(NoCandidates(field));
      }
    }
    if DATA !in colMapping || TMEDIA !in colMapping {
      return Err(RequiredNotSelected);
    }
    return Ok(colMapping);
  }
}
