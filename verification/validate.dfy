/** The validation engine: a closed set of per-field rules run over the
    values of one record. A value of the wrong length is reported as
    `LEN_MISMATCH` and nothing else is checked for that field; otherwise the
    `DODID10` and `DATE_YYYYMMDD` domains require, of a non-blank value, a
    trimmed text of exactly 10 or 8 digits. Findings are collected, never thrown. */
module Validate {
  import opened Common
  import opened Text
  import opened WriterPlan

  datatype ErrorCode = LenMismatch | BadDodid10 | BadDate

  /** The code as stored with a finding. */
  function CodeName(c: ErrorCode): string {
    match c
    case LenMismatch => "LEN_MISMATCH"
    case BadDodid10 => "BAD_DODID10"
    case BadDate => "BAD_DATE"
  }

  /** One finding (`ValidationErrorRow`). `expected` and `actual` are
      nullable columns in the program, but this engine always fills them. */
  datatype ValidationErrorRow = ValidationErrorRow(
    recordOrdinal: int,
    exportFieldName: string,
    errorCode: ErrorCode,
    expected: string,
    actual: string,
    message: string)

  /** The domain types the engine checks. */
  const DodidDomain: string := "DODID10"
  const DateDomain: string := "DATE_YYYYMMDD"

  /** `isBlank`: nothing but whitespace. */
  function IsBlank(v: string): (b: bool)
    ensures b <==> AllWhitespace(v)
  {
    |Trim(v)| == 0
  }

  /** The value validated for a plan entry: the one recorded under its
      name, or the empty string when there is none. */
  function ValueFor(f: WriterFieldPlan, values: map<string, string>): string {
    if f.fieldName in values then values[f.fieldName] else ""
  }

  /** A domain value that fails: not blank, and its trim is not `n` digits. */
  predicate FailsDigits(v: string, n: nat) {
    !IsBlank(v) && !IsDigitRun(Trim(v), n)
  }

  /** The domain checks of a value of the right length. `DODID10` and
      `DATE_YYYYMMDD` each reject a non-blank value whose trim is not 10,
      respectively 8, digits, reporting the trimmed value; an absent, empty
      or unknown domain type checks nothing. */
  function DomainFindings(ordinal: int, name: string, domainType: Option<string>, v: string): (r: seq<ValidationErrorRow>)
    ensures |r| <= 1
    ensures forall e :: e in r ==> e.recordOrdinal == ordinal && e.exportFieldName == name
                                   && e.errorCode != LenMismatch && e.actual == Trim(v)
    ensures r != [] && r[0].errorCode == BadDodid10 <==> domainType == Some(DodidDomain) && FailsDigits(v, 10)
    ensures r != [] && r[0].errorCode == BadDate <==> domainType == Some(DateDomain) && FailsDigits(v, 8)
    ensures forall e :: e in r && e.errorCode == BadDodid10 ==> e.expected == "10 digits" && e.message == "DoD ID must be 10 digits"
    ensures forall e :: e in r && e.errorCode == BadDate ==> e.expected == "YYYYMMDD" && e.message == "Date must be YYYYMMDD"
  {
    match domainType
    case None => []
    case Some(dt) =>
      (if dt == DodidDomain && FailsDigits(v, 10)
       then [ValidationErrorRow(ordinal, name, BadDodid10, "10 digits", Trim(v), "DoD ID must be 10 digits")]
       else [])
      + (if dt == DateDomain && FailsDigits(v, 8)
         then [ValidationErrorRow(ordinal, name, BadDate, "YYYYMMDD", Trim(v), "Date must be YYYYMMDD")]
         else [])
  }

  /** The finding a value of the wrong length draws: expected and actual
      are the two lengths in decimal. */
  function LenMismatchRow(ordinal: int, name: string, length: nat, v: string): ValidationErrorRow {
    ValidationErrorRow(ordinal, name, LenMismatch, NatToString(length), NatToString(|v|),
                       "Expected padded value length " + NatToString(length) + ", got " + NatToString(|v|))
  }

  /** The findings for one plan entry: exactly one `LEN_MISMATCH` when the
      value has the wrong length, and then no domain check; otherwise the
      domain findings. */
  function FieldFindings(ordinal: int, f: WriterFieldPlan, values: map<string, string>): (r: seq<ValidationErrorRow>)
    ensures |r| <= 1
    ensures forall e :: e in r ==> e.recordOrdinal == ordinal && e.exportFieldName == f.fieldName
    ensures var v := ValueFor(f, values);
      if |v| != f.length then r == [LenMismatchRow(ordinal, f.fieldName, f.length, v)]
      else r == DomainFindings(ordinal, f.fieldName, f.domainType, v)
  {
    var v := ValueFor(f, values);
    if |v| != f.length then [LenMismatchRow(ordinal, f.fieldName, f.length, v)]
    else DomainFindings(ordinal, f.fieldName, f.domainType, v)
  }

  /** `validateRecord`: the findings of every plan entry, in plan order. At
      most one per entry, every one carrying the record's ordinal and the
      name of an entry of the plan. */
  function ValidateRecord(ordinal: int, plan: seq<WriterFieldPlan>, values: map<string, string>): (r: seq<ValidationErrorRow>)
    ensures |r| <= |plan|
    ensures forall i :: 0 <= i < |r| ==> r[i].recordOrdinal == ordinal
    ensures forall i :: 0 <= i < |r| ==> exists j :: 0 <= j < |plan| && r[i].exportFieldName == plan[j].fieldName
    ensures forall j, e :: 0 <= j < |plan| && e in FieldFindings(ordinal, plan[j], values) ==> e in r
    ensures forall e :: e in r ==> FindingOfEntry(e, ordinal, plan, values)
  {
    if plan == [] then []
    else
      var head := FieldFindings(ordinal, plan[0], values);
      var tail := ValidateRecord(ordinal, plan[1..], values);
      FindingsConcat(ordinal, plan, head, tail);
      FindingsConcatMembers(ordinal, plan, values, tail);
      head + tail
  }

  /** `e` is one of the findings of some entry of `plan`. */
  predicate FindingOfEntry(e: ValidationErrorRow, ordinal: int, plan: seq<WriterFieldPlan>, values: map<string, string>) {
    exists j :: 0 <= j < |plan| && e in FieldFindings(ordinal, plan[j], values)
  }

  /** The first entry's findings followed by the rest's hold exactly the
      findings of the entries of the whole plan. */
  lemma FindingsConcatMembers(ordinal: int, plan: seq<WriterFieldPlan>, values: map<string, string>, tail: seq<ValidationErrorRow>)
    requires plan != []
    requires forall j, e :: 0 <= j < |plan[1..]| && e in FieldFindings(ordinal, plan[1..][j], values) ==> e in tail
    requires forall e :: e in tail ==> FindingOfEntry(e, ordinal, plan[1..], values)
    ensures forall j, e :: 0 <= j < |plan| && e in FieldFindings(ordinal, plan[j], values) ==> e in FieldFindings(ordinal, plan[0], values) + tail
    ensures forall e :: e in FieldFindings(ordinal, plan[0], values) + tail ==> FindingOfEntry(e, ordinal, plan, values)
  {
    var head := FieldFindings(ordinal, plan[0], values);
    forall j, e | 0 <= j < |plan| && e in FieldFindings(ordinal, plan[j], values)
      ensures e in head + tail
    {
      if j > 0 {
        assert plan[1..][j - 1] == plan[j];
      }
    }
    forall e | e in head + tail
      ensures FindingOfEntry(e, ordinal, plan, values)
    {
      if e in head {
        assert e in FieldFindings(ordinal, plan[0], values);
      } else {
        assert e in tail;
        var j :| 0 <= j < |plan[1..]| && e in FieldFindings(ordinal, plan[1..][j], values);
        assert plan[1..][j] == plan[j + 1];
      }
    }
  }

  /** `name` is the name of an entry of `plan`. */
  predicate NamedInPlan(name: string, plan: seq<WriterFieldPlan>) {
    exists j :: 0 <= j < |plan| && name == plan[j].fieldName
  }

  /** The findings of the first entry followed by those of the rest keep the
      ordinal and name entries of the whole plan. */
  lemma FindingsConcat(ordinal: int, plan: seq<WriterFieldPlan>, head: seq<ValidationErrorRow>, tail: seq<ValidationErrorRow>)
    requires plan != [] && |head| <= 1 && |tail| <= |plan| - 1
    requires forall e :: e in head ==> e.recordOrdinal == ordinal && e.exportFieldName == plan[0].fieldName
    requires forall i :: 0 <= i < |tail| ==> tail[i].recordOrdinal == ordinal
    requires forall i :: 0 <= i < |tail| ==> NamedInPlan(tail[i].exportFieldName, plan[1..])
    ensures |head + tail| <= |plan|
    ensures forall i :: 0 <= i < |head + tail| ==> (head + tail)[i].recordOrdinal == ordinal
    ensures forall i :: 0 <= i < |head + tail| ==> NamedInPlan((head + tail)[i].exportFieldName, plan)
  {
    forall i | 0 <= i < |head + tail|
      ensures (head + tail)[i].recordOrdinal == ordinal
      ensures NamedInPlan((head + tail)[i].exportFieldName, plan)
    {
      if i < |head| {
        assert (head + tail)[i] == head[i] && head[i] in head;
        assert (head + tail)[i].exportFieldName == plan[0].fieldName;
      } else {
        var k := i - |head|;
        assert (head + tail)[i] == tail[k];
        var j :| 0 <= j < |plan[1..]| && tail[k].exportFieldName == plan[1..][j].fieldName;
        assert plan[1..][j] == plan[j + 1];
      }
    }
  }

  /** Validation is field by field: validating a plan in two pieces gives
      the findings of the first piece followed by those of the second. */
  lemma {:induction false} ValidateRecordAppend(ordinal: int, a: seq<WriterFieldPlan>, b: seq<WriterFieldPlan>, values: map<string, string>)
    ensures ValidateRecord(ordinal, a + b, values) == ValidateRecord(ordinal, a, values) + ValidateRecord(ordinal, b, values)
  {
    if a == [] {
      assert a + b == b;
    } else {
      assert (a + b)[0] == a[0];
      assert (a + b)[1..] == a[1..] + b;
      ValidateRecordAppend(ordinal, a[1..], b, values);
    }
  }

  /** A blank value passes both domain checks, whatever the domain type. */
  lemma BlankPassesDomains(ordinal: int, name: string, domainType: Option<string>, v: string)
    requires AllWhitespace(v)
    ensures DomainFindings(ordinal, name, domainType, v) == []
  {
    assert IsBlank(v);
    assert !FailsDigits(v, 10) && !FailsDigits(v, 8);
  }

  /** A whitespace-only value never draws a domain finding: it draws the
      length finding when its length is wrong, and nothing otherwise. */
  lemma BlankHasNoDomainFinding(ordinal: int, f: WriterFieldPlan, values: map<string, string>)
    requires AllWhitespace(ValueFor(f, values))
    ensures var v := ValueFor(f, values);
      FieldFindings(ordinal, f, values) == if |v| != f.length then [LenMismatchRow(ordinal, f.fieldName, f.length, v)] else []
  {
    BlankPassesDomains(ordinal, f.fieldName, f.domainType, ValueFor(f, values));
  }

  /** When every plan entry's recorded value is what that entry resolves to
      for the record (as the line builder records them when field names are
      distinct), the length check never fires: it is a sanity check of the
      compiled plan. */
  lemma {:induction false} ResolvedValuesHaveNoLenMismatch(ordinal: int, plan: seq<WriterFieldPlan>, ctx: RecordContext, values: map<string, string>)
    requires forall j :: 0 <= j < |plan| ==> plan[j].fieldName in values && values[plan[j].fieldName] == Resolve(plan[j], ctx)
    ensures forall e :: e in ValidateRecord(ordinal, plan, values) ==> e.errorCode != LenMismatch
  {
    if plan != [] {
      assert forall j :: 0 <= j < |plan[1..]| ==> plan[1..][j] == plan[j + 1];
      ResolvedValuesHaveNoLenMismatch(ordinal, plan[1..], ctx, values);
    }
  }

  /** When two plan entries share a name, only the later value is kept, so
      the earlier entry is checked against it: a 2-character entry named `X`
      followed by a 3-character one draws a `LEN_MISMATCH` for the first. */
  lemma DuplicateNameLenMismatch()
    ensures
      var plan := [WriterFieldPlan("X", 1, 2, None, None), WriterFieldPlan("X", 3, 3, None, None)];
      var r := ValidateRecord(1, plan, map["X" := "   "]);
      |r| == 1 && r[0].errorCode == LenMismatch
  {
    var plan := [WriterFieldPlan("X", 1, 2, None, None), WriterFieldPlan("X", 3, 3, None, None)];
    assert plan[1..] == [plan[1]];
    assert plan[1..][1..] == [];
  }

  // ----- worked cases -----

  lemma LengthMismatchExample()
    ensures
      var r := ValidateRecord(1, [WriterFieldPlan("X", 1, 5, None, None)], map["X" := "AB"]);
      |r| == 1 && r[0].errorCode == LenMismatch && r[0].expected == "5" && r[0].actual == "2"
  {
    var plan := [WriterFieldPlan("X", 1, 5, None, None)];
    assert plan[1..] == [];
  }

  /** Ten digits pass the `DODID10` check; `ABCDEF1234` fails it. */
  lemma DodidDomainExample()
    ensures DomainFindings(1, "DODID", Some("DODID10"), "1234567890") == []
    ensures var r := DomainFindings(1, "DODID", Some("DODID10"), "ABCDEF1234");
      |r| == 1 && r[0].errorCode == BadDodid10 && r[0].actual == "ABCDEF1234"
  {
    DodidDigitsPass();
    DodidLettersFail();
  }

  lemma DodidDigitsPass()
    ensures DomainFindings(1, "DODID", Some("DODID10"), "1234567890") == []
  {
    var good := "1234567890";
    assert IsTrimmed(good) && IsDigitRun(good, 10);
    DigitRunPassesDodid(1, "DODID", good);
  }

  /** A trimmed run of ten digits draws no `DODID10` finding. */
  lemma DigitRunPassesDodid(ordinal: int, name: string, v: string)
    requires IsTrimmed(v) && IsDigitRun(v, 10)
    ensures DomainFindings(ordinal, name, Some(DodidDomain), v) == []
  {
    TrimOfTrimmed(v);
    assert !AllWhitespace(v) by { assert !IsWhitespace(v[0]); }
    assert !FailsDigits(v, 10);
    assert DodidDomain != DateDomain by { assert DodidDomain[1] != DateDomain[1]; }
  }

  lemma DodidLettersFail()
    ensures var r := DomainFindings(1, "DODID", Some("DODID10"), "ABCDEF1234");
      |r| == 1 && r[0].errorCode == BadDodid10 && r[0].actual == "ABCDEF1234"
  {
    var bad := "ABCDEF1234";
    assert IsTrimmed(bad);
    TrimOfTrimmed(bad);
    assert !IsBlank(bad) && !IsDigit(bad[0]);
  }

  /** The same checks through `validateRecord` on a one-field plan. */
  lemma DodidExample()
    ensures ValidateRecord(1, [WriterFieldPlan("DODID", 1, 10, Some("DODID10"), None)], map["DODID" := "1234567890"]) == []
    ensures
      var r := ValidateRecord(1, [WriterFieldPlan("DODID", 1, 10, Some("DODID10"), None)], map["DODID" := "ABCDEF1234"]);
      |r| == 1 && r[0].errorCode == BadDodid10
  {
    var f := WriterFieldPlan("DODID", 1, 10, Some("DODID10"), None);
    SingleField(1, f, map["DODID" := "1234567890"]);
    SingleField(1, f, map["DODID" := "ABCDEF1234"]);
    DodidDomainExample();
  }

  /** Eight digits pass the `DATE_YYYYMMDD` check; `2026-2-1` fails it. */
  lemma DateDomainExample()
    ensures DomainFindings(1, "DATE", Some("DATE_YYYYMMDD"), "20260214") == []
    ensures var r := DomainFindings(1, "DATE", Some("DATE_YYYYMMDD"), "2026-2-1");
      |r| == 1 && r[0].errorCode == BadDate
  {
    var good, bad := "20260214", "2026-2-1";
    assert IsTrimmed(good) && IsTrimmed(bad);
    TrimOfTrimmed(good);
    TrimOfTrimmed(bad);
    assert !IsBlank(good) && IsDigitRun(good, 8);
    assert !IsBlank(bad) && !IsDigit(bad[4]);
  }

  /** The same checks through `validateRecord`; a dashed date in an
      8-character field is already caught by the length check. */
  lemma DateExample()
    ensures ValidateRecord(1, [WriterFieldPlan("DATE", 1, 8, Some("DATE_YYYYMMDD"), None)], map["DATE" := "20260214"]) == []
    ensures
      var r := ValidateRecord(1, [WriterFieldPlan("DATE", 1, 8, Some("DATE_YYYYMMDD"), None)], map["DATE" := "2026-2-1"]);
      |r| == 1 && r[0].errorCode == BadDate
    ensures
      var r := ValidateRecord(1, [WriterFieldPlan("DATE", 1, 8, Some("DATE_YYYYMMDD"), None)], map["DATE" := "2026-02-14"]);
      |r| == 1 && r[0].errorCode == LenMismatch
  {
    var f := WriterFieldPlan("DATE", 1, 8, Some("DATE_YYYYMMDD"), None);
    SingleField(1, f, map["DATE" := "20260214"]);
    SingleField(1, f, map["DATE" := "2026-2-1"]);
    SingleField(1, f, map["DATE" := "2026-02-14"]);
    DateDomainExample();
  }

  /** A one-entry plan draws exactly that entry's findings. */
  lemma SingleField(ordinal: int, f: WriterFieldPlan, values: map<string, string>)
    ensures ValidateRecord(ordinal, [f], values) == FieldFindings(ordinal, f, values)
  {
    assert [f][1..] == [];
  }
}
