/** The writer-plan compiler: each export field, together with its mapping
    rule if it has one, becomes a resolver from a record context to a string
    of exactly the field's declared length. A resolver reads the raw value
    (a row column or a question response, falling back to the rule's
    default), renders dates as `YYYY-MM-DD`, applies the transforms left to
    right and finally pads or truncates to length. */
module WriterPlan {
  import opened Common
  import opened Text
  import opened ParseRules

  /** One cell of a source row. */
  datatype Value =
    | VNull                   // SQL NULL, or `undefined`
    | VStr(s: string)
    | VDate(isoString: string) // a `Date`, by its `toISOString()` text
    | VOther(repr: string)     // any other value, by its `String(v)` text

  /** A row of one source table: column name to cell. A missing row object
      behaves as the empty row. */
  type Row = map<string, Value>

  datatype ExportField = ExportField(
    exportFieldId: string,
    fieldName: string,
    startPos: int,
    endPos: int,
    fieldLength: nat,
    domainType: Option<string>)

  /** The per-record inputs: three source rows and the question responses,
      keyed by `"<question code>:<field name>"`. */
  datatype RecordContext = RecordContext(
    assessment: Row,
    deployer: Row,
    providerReview: Row,
    responses: map<string, string>)

  /** One compiled export field. The source's `getValue` closure captures
      the field's length and its rule; here the captured rule is stored in
      the plan and `Resolve` plays the closure. */
  datatype WriterFieldPlan = WriterFieldPlan(
    fieldName: string,
    startPos: int,
    length: nat,
    domainType: Option<string>,
    rule: Option<ParsedRule>)

  // ----- date rendering -----

  /** The regular expression `^\d{4}-\d{2}-\d{2}`. */
  predicate IsIsoDatePrefix(s: string) {
    && |s| >= 10
    && AllDigits(s[..4]) && s[4] == '-'
    && AllDigits(s[5..7]) && s[7] == '-'
    && AllDigits(s[8..10])
  }

  /** The regular expression `^\d{4}-\d{2}-\d{2}T`. */
  predicate IsIsoDateTimePrefix(s: string) {
    IsIsoDatePrefix(s) && |s| >= 11 && s[10] == 'T'
  }

  lemma IsoDatePrefixOfPrefix(s: string)
    requires IsIsoDatePrefix(s)
    ensures IsIsoDatePrefix(s[..10])
  {
    var d := s[..10];
    assert d[..4] == s[..4] && d[5..7] == s[5..7] && d[8..10] == s[8..10];
  }

  lemma RemoveDashesBetween(y: string, m: string, d: string)
    requires '-' !in y && '-' !in m && '-' !in d
    ensures RemoveChar(y + (['-'] + (m + (['-'] + d))), '-') == y + (m + d)
  {
    var dd := ['-'] + d;
    var md := m + dd;
    var tail := ['-'] + md;
    assert RemoveChar(dd, '-') == d by {
      assert dd[1..] == d;
      RemoveCharAbsent(d, '-');
    }
    assert RemoveChar(md, '-') == m + d by {
      RemoveCharAppend(m, dd, '-');
      RemoveCharAbsent(m, '-');
    }
    assert RemoveChar(tail, '-') == m + d by {
      assert tail[1..] == md;
    }
    RemoveCharAppend(y, tail, '-');
    RemoveCharAbsent(y, '-');
  }

  lemma DigitsHaveNoDash(s: string)
    requires AllDigits(s)
    ensures '-' !in s
  {
    forall i | 0 <= i < |s|
      ensures s[i] != '-'
    {
      assert IsDigit(s[i]);
    }
  }

  /** `s.slice(0, 10).replaceAll("-", "")` on a leading `DDDD-DD-DD` keeps its eight digits. */
  lemma StripDashesOfIsoDate(t: string)
    requires IsIsoDatePrefix(t)
    ensures RemoveChar(t[..10], '-') == t[..4] + t[5..7] + t[8..10]
    ensures IsDigitRun(t[..4] + t[5..7] + t[8..10], 8)
  {
    var y, m, d := t[..4], t[5..7], t[8..10];
    assert t[..10] == y + (['-'] + (m + (['-'] + d)));
    DigitsHaveNoDash(y);
    DigitsHaveNoDash(m);
    DigitsHaveNoDash(d);
    RemoveDashesBetween(y, m, d);
    var r := y + m + d;
    forall i | 0 <= i < 8
      ensures IsDigit(r[i])
    {
      if i < 4 { assert r[i] == y[i]; }
      else if i < 6 { assert r[i] == m[i - 4]; }
      else { assert r[i] == d[i - 6]; }
    }
  }

  /** `String.prototype.slice(0, n)` for `n >= 0`. */
  function Prefix(s: string, n: nat): (r: string)
    ensures r <= s && |r| == if |s| < n then |s| else n
  {
    if |s| <= n then s else s[..n]
  }

  /** `toIsoDateIfDate`: dates and ISO timestamps become their `YYYY-MM-DD`
      part; other strings and values are kept as their text; null is empty. */
  function ToIsoDateIfDate(v: Value): (r: string)
    ensures v.VDate? ==> r <= v.isoString && |r| == if |v.isoString| < 10 then |v.isoString| else 10
    ensures v.VStr? && IsIsoDateTimePrefix(v.s) ==> r == v.s[..10] && IsIsoDatePrefix(r) && |r| == 10
    ensures v.VStr? && !IsIsoDateTimePrefix(v.s) ==> r == v.s
    ensures v.VOther? ==> r == v.repr
    ensures v.VNull? ==> r == ""
  {
    match v
    case VDate(iso) => Prefix(iso, 10)
    case VStr(s) =>
      if IsIsoDateTimePrefix(s) then
        IsoDatePrefixOfPrefix(s);
        s[..10]
      else s
    case VNull => ""
    case VOther(repr) => repr
  }

  /** A `Date` renders as the date part of its ISO text, just as that text
      would in a string cell. */
  lemma DateRendersLikeIsoText(iso: string)
    requires IsIsoDateTimePrefix(iso)
    ensures ToIsoDateIfDate(VDate(iso)) == ToIsoDateIfDate(VStr(iso)) == iso[..10]
    ensures IsIsoDatePrefix(ToIsoDateIfDate(VDate(iso)))
  {
    IsoDatePrefixOfPrefix(iso);
  }

  // ----- raw values -----

  /** The row a column source reads. Only `ASSESSMENT` and `DEPLOYER` are
      told apart: every other table name, known or not, reads the
      provider-review row. */
  function RowOf(table: string, ctx: RecordContext): Row {
    if table == "ASSESSMENT" then ctx.assessment
    else if table == "DEPLOYER" then ctx.deployer
    else ctx.providerReview
  }

  /** The key a response source looks up. */
  function ResponseKey(q: string, f: string): string {
    q + ":" + f
  }

  /** The raw text of a source, before any transform: a column cell that is
      missing or null falls back to the default, and the result has its date
      rendered; a missing response falls back to the default and is taken
      verbatim. */
  function RawValue(src: SourceExpr, ctx: RecordContext, default: string): (r: string)
    ensures src.Col? ==>
      var row := RowOf(src.table, ctx);
      if src.column in row && row[src.column] != VNull then r == ToIsoDateIfDate(row[src.column])
      else r == ToIsoDateIfDate(VStr(default))
    ensures src.Resp? ==>
      var key := ResponseKey(src.questionCode, src.fieldName);
      r == if key in ctx.responses then ctx.responses[key] else default
  {
    match src
    case Col(table, column) =>
      var row := RowOf(table, ctx);
      var cell := if column in row && row[column] != VNull then row[column] else VStr(default);
      ToIsoDateIfDate(cell)
    case Resp(q, f) =>
      var key := ResponseKey(q, f);
      if key in ctx.responses then ctx.responses[key] else default
  }

  /** A column source whose table name is neither `ASSESSMENT` nor
      `DEPLOYER` (a misspelt one included) reads the provider-review row. */
  lemma UnknownTableReadsProviderReview(table: string, column: string, ctx: RecordContext, default: string)
    requires table != "ASSESSMENT" && table != "DEPLOYER"
    ensures RawValue(Col(table, column), ctx, default) == RawValue(Col("PROVIDER_REVIEW", column), ctx, default)
  {
  }

  // ----- transforms -----

  /** The `date:yyyymmdd` transform: a best-effort normaliser. The value is
      trimmed; eight digits are kept; a leading `DDDD-DD-DD` becomes its eight
      digits; anything else stays as trimmed. */
  function NormalizeDate(v: string): (r: string)
    ensures IsDigitRun(Trim(v), 8) ==> r == Trim(v)
    ensures IsIsoDatePrefix(Trim(v)) ==>
      var t := Trim(v); r == t[..4] + t[5..7] + t[8..10] && IsDigitRun(r, 8)
    ensures !IsDigitRun(Trim(v), 8) && !IsIsoDatePrefix(Trim(v)) ==> r == Trim(v)
  {
    var t := Trim(v);
    if IsDigitRun(t, 8) then t
    else if IsIsoDatePrefix(t) then
      StripDashesOfIsoDate(t);
      RemoveChar(t[..10], '-')
    else t
  }

  /** Normalising a date twice gives the same text as normalising it once. */
  lemma NormalizeDateIdempotent(v: string)
    ensures NormalizeDate(NormalizeDate(v)) == NormalizeDate(v)
  {
    var t := Trim(v);
    var r := NormalizeDate(v);
    if IsDigitRun(t, 8) || IsIsoDatePrefix(t) {
      assert IsDigitRun(r, 8);
      assert IsTrimmed(r) by { assert !IsWhitespace(r[0]) && !IsWhitespace(r[7]); }
      TrimOfTrimmed(r);
    } else {
      TrimIdempotent(v);
    }
  }

  /** One transform step: `trim` is the trimmed text, `lower` maps each
      character to its lower case, and `date:yyyymmdd` trims, keeps eight
      digits, turns a leading `YYYY-MM-DD` into its eight digits, and keeps
      any other trimmed text. */
  function ApplyTransform(v: string, op: TransformOp): (r: string)
    ensures op == TrimOp ==> r == Trim(v) && IsTrimmed(r) && (r == [] <==> AllWhitespace(v))
    ensures op == LowerOp ==> |r| == |v| && forall i :: 0 <= i < |v| ==> r[i] == LowerChar(v[i])
    ensures op == DateYyyymmdd ==> IsDigitRun(r, 8) || r == Trim(v)
    ensures op == DateYyyymmdd && IsDigitRun(Trim(v), 8) ==> r == Trim(v)
    ensures op == DateYyyymmdd && IsIsoDatePrefix(Trim(v)) ==>
      var t := Trim(v); r == t[..4] + t[5..7] + t[8..10]
    ensures op == DateYyyymmdd && !IsDigitRun(Trim(v), 8) && !IsIsoDatePrefix(Trim(v)) ==> r == Trim(v)
  {
    match op
    case TrimOp => Trim(v)
    case LowerOp => Lower(v)
    case DateYyyymmdd => NormalizeDate(v)
  }

  /** `applyTransforms`: the transforms in list order, each on the previous result. */
  function ApplyTransforms(v: string, ops: seq<TransformOp>): (r: string)
    ensures ops == [] ==> r == v
    ensures |ops| == 1 ==> r == ApplyTransform(v, ops[0])
    decreases |ops|
  {
    if ops == [] then v else ApplyTransforms(ApplyTransform(v, ops[0]), ops[1..])
  }

  /** Every transform is idempotent: applying it to its own result
      changes nothing. */
  lemma ApplyTransformIdempotent(v: string, op: TransformOp)
    ensures ApplyTransform(ApplyTransform(v, op), op) == ApplyTransform(v, op)
  {
    match op
    case TrimOp => TrimIdempotent(v);
    case LowerOp => LowerIdempotent(v);
    case DateYyyymmdd => NormalizeDateIdempotent(v);
  }

  /** Running a pipeline in two pieces is running it whole: transforms
      compose left to right. */
  lemma {:induction false} ApplyTransformsAppend(v: string, a: seq<TransformOp>, b: seq<TransformOp>)
    ensures ApplyTransforms(v, a + b) == ApplyTransforms(ApplyTransforms(v, a), b)
    decreases |a|
  {
    if a == [] {
      assert a + b == b;
    } else {
      assert (a + b)[0] == a[0];
      assert (a + b)[1..] == a[1..] + b;
      ApplyTransformsAppend(ApplyTransform(v, a[0]), a[1..], b);
    }
  }

  /** A one-transform pipeline is that transform. */
  lemma ApplyOne(v: string, op: TransformOp)
    ensures ApplyTransforms(v, [op]) == ApplyTransform(v, op)
  {
    assert [op][1..] == [];
  }

  /** A two-transform pipeline is the first, then the second. */
  lemma ApplyTwo(v: string, op1: TransformOp, op2: TransformOp)
    ensures ApplyTransforms(v, [op1, op2]) == ApplyTransform(ApplyTransform(v, op1), op2)
  {
    assert [op1, op2][1..] == [op2];
    ApplyOne(ApplyTransform(v, op1), op2);
  }

  // ----- padding -----

  /** `padToLength`: exactly `length` characters. A longer value is cut on the
      right; a shorter one gets `'0'`s in front under `LeftZero` and spaces
      behind under any other rule. */
  function PadToLength(v: string, length: nat, pad: PadRule): (r: string)
    ensures |r| == length
    ensures |v| >= length ==> r == v[..length]
    ensures |v| < length && pad == LeftZero ==>
      r[length - |v|..] == v && forall i :: 0 <= i < length - |v| ==> r[i] == '0'
    ensures |v| < length && pad != LeftZero ==>
      r[..|v|] == v && forall i :: |v| <= i < length ==> r[i] == ' '
  {
    var out := if |v| > length then v[..length] else v;
    if |out| < length then
      if pad == LeftZero then Repeat('0', length - |out|) + out
      else out + Repeat(' ', length - |out|)
    else out
  }

  /** Padding is idempotent, and a value of exactly the length is kept as is. */
  lemma PadToLengthIdempotent(v: string, length: nat, pad: PadRule)
    ensures PadToLength(PadToLength(v, length, pad), length, pad) == PadToLength(v, length, pad)
    ensures |v| == length ==> PadToLength(v, length, pad) == v
  {
  }

  // ----- resolution and the plan -----

  /** The `getValue` closure of a plan entry: blanks for a field without a
      rule, otherwise raw value, then transforms, then padding. Whatever the
      record, the result has exactly the entry's length. */
  function Resolve(p: WriterFieldPlan, ctx: RecordContext): (r: string)
    ensures |r| == p.length
    ensures p.rule.None? ==> forall i :: 0 <= i < |r| ==> r[i] == ' '
    ensures p.rule.Some? ==>
      var v := ApplyTransforms(RawValue(p.rule.value.source, ctx, p.rule.value.defaultValue), p.rule.value.transforms);
      (|v| >= p.length ==> r == v[..p.length]) && (|v| <= p.length ==> v <= r || v == r[p.length - |v|..])
    ensures p.rule.Some? ==>
      r == PadToLength(ApplyTransforms(RawValue(p.rule.value.source, ctx, p.rule.value.defaultValue), p.rule.value.transforms),
                       p.length, p.rule.value.pad)
  {
    match p.rule
    case None => Repeat(' ', p.length)
    case Some(rule) =>
      var raw := RawValue(rule.source, ctx, rule.defaultValue);
      PadToLength(ApplyTransforms(raw, rule.transforms), p.length, rule.pad)
  }

  /** The rule of an export field, looked up by its id. */
  function RuleFor(f: ExportField, rules: map<string, ParsedRule>): Option<ParsedRule> {
    if f.exportFieldId in rules then Some(rules[f.exportFieldId]) else None
  }

  /** `buildWriterPlan`: one entry per field, in field order, copying name,
      start position and domain type; the entry's length is `field_length`
      as declared (the end position is not consulted). */
  function BuildWriterPlan(fields: seq<ExportField>, rules: map<string, ParsedRule>): (plan: seq<WriterFieldPlan>)
    ensures |plan| == |fields|
    ensures forall i :: 0 <= i < |fields| ==>
      && plan[i].fieldName == fields[i].fieldName
      && plan[i].startPos == fields[i].startPos
      && plan[i].length == fields[i].fieldLength
      && plan[i].domainType == fields[i].domainType
      && plan[i].rule == RuleFor(fields[i], rules)
  {
    seq(|fields|, i requires 0 <= i < |fields| =>
      WriterFieldPlan(fields[i].fieldName, fields[i].startPos, fields[i].fieldLength,
                      fields[i].domainType, RuleFor(fields[i], rules)))
  }

  /** The length invariant: every compiled field resolves, for every record,
      to exactly its declared `field_length` characters. */
  lemma ResolvedLengthIsFieldLength(fields: seq<ExportField>, rules: map<string, ParsedRule>, ctx: RecordContext, i: nat)
    requires i < |fields|
    ensures |Resolve(BuildWriterPlan(fields, rules)[i], ctx)| == fields[i].fieldLength
  {
  }

  // ----- worked cases -----

  /** An ISO timestamp in a column, under `date:yyyymmdd`, comes out as the
      eight digits of its calendar date (`2026-02-14T12:34:56Z` gives `20260214`). */
  lemma TimestampColumnToDigits(s: string)
    requires IsIsoDateTimePrefix(s)
    ensures ApplyTransforms(ToIsoDateIfDate(VStr(s)), [DateYyyymmdd]) == s[..4] + s[5..7] + s[8..10]
  {
    var d := ToIsoDateIfDate(VStr(s));
    assert IsTrimmed(d) by {
      assert d[0] == d[..4][0] && d[9] == d[8..10][1];
    }
    TrimOfTrimmed(d);
    assert d[..4] == s[..4] && d[5..7] == s[5..7] && d[8..10] == s[8..10];
    ApplyOne(d, DateYyyymmdd);
  }

  /** A trimmed column value shorter than its field, under `trim` and
      `pad:left:0`, resolves to leading zeros followed by the value
      (`"7"` in a 3-character field gives `"007"`). */
  lemma LeftZeroColumn(p: WriterFieldPlan, v: string, ctx: RecordContext)
    requires p.rule.Some? && p.rule.value.source.Col? && p.rule.value.transforms == [TrimOp] && p.rule.value.pad == LeftZero
    requires var src := p.rule.value.source;
      src.column in RowOf(src.table, ctx) && RowOf(src.table, ctx)[src.column] == VStr(v)
    requires IsTrimmed(v) && !IsIsoDateTimePrefix(v) && |v| < p.length
    ensures Resolve(p, ctx) == Repeat('0', p.length - |v|) + v
  {
    var rule := p.rule.value;
    PlainColumnText(rule.source, ctx, rule.defaultValue, v);
    ResolveRule(p, ctx);
    TrimThenLeftZero(v, p.length);
  }

  /** A trimmed value under `trim` and left-zero padding to a longer length. */
  lemma TrimThenLeftZero(v: string, length: nat)
    requires IsTrimmed(v) && |v| < length
    ensures PadToLength(ApplyTransforms(v, [TrimOp]), length, LeftZero) == Repeat('0', length - |v|) + v
  {
    TrimOfTrimmed(v);
    ApplyOne(v, TrimOp);
    LeftZeroPad(v, length);
  }

  /** A string cell that is no ISO timestamp is read as it is. */
  lemma PlainColumnText(src: SourceExpr, ctx: RecordContext, default: string, v: string)
    requires src.Col? && src.column in RowOf(src.table, ctx) && RowOf(src.table, ctx)[src.column] == VStr(v)
    requires !IsIsoDateTimePrefix(v)
    ensures RawValue(src, ctx, default) == v
  {
  }

  /** A field with a rule resolves to its transformed raw value, padded. */
  lemma ResolveRule(p: WriterFieldPlan, ctx: RecordContext)
    requires p.rule.Some?
    ensures var rule := p.rule.value;
      Resolve(p, ctx) == PadToLength(ApplyTransforms(RawValue(rule.source, ctx, rule.defaultValue), rule.transforms), p.length, rule.pad)
  {
  }

  /** Left-zero padding a shorter value puts exactly the missing number of
      `'0'`s in front of it. */
  lemma LeftZeroPad(v: string, length: nat)
    requires |v| < length
    ensures PadToLength(v, length, LeftZero) == Repeat('0', length - |v|) + v
  {
    var r := PadToLength(v, length, LeftZero);
    var k := length - |v|;
    assert r[..k] == Repeat('0', k);
    assert r == r[..k] + r[k..];
  }

  /** A response surrounded by whitespace, under `trim|lower` and
      `pad:right:space`, resolves to its lowercased core followed by spaces. */
  lemma TrimLowerResponse(p: WriterFieldPlan, ctx: RecordContext, a: string, m: string, b: string)
    requires p.rule.Some? && p.rule.value.source.Resp?
    requires p.rule.value.transforms == [TrimOp, LowerOp] && p.rule.value.pad == RightSpace
    requires var src := p.rule.value.source;
      ResponseKey(src.questionCode, src.fieldName) in ctx.responses
      && ctx.responses[ResponseKey(src.questionCode, src.fieldName)] == a + m + b
    requires AllWhitespace(a) && AllWhitespace(b) && IsTrimmed(m) && |m| <= p.length
    ensures Resolve(p, ctx) == Lower(m) + Repeat(' ', p.length - |m|)
  {
    var rule := p.rule.value;
    assert RawValue(rule.source, ctx, rule.defaultValue) == a + m + b;
    TrimOfPadded(a, m, b);
    ApplyTwo(a + m + b, TrimOp, LowerOp);
    var r := Resolve(p, ctx);
    assert r == PadToLength(Lower(m), p.length, RightSpace);
    assert r == r[..|m|] + r[|m|..];
  }

  /** The text facts behind the e-mail example: two spaces either side of
      a trimmed core that lowercases to `test@example.com`. */
  lemma EmailTextFacts()
    ensures "  " + "TeSt@EXAMPLE.com" + "  " == "  TeSt@EXAMPLE.com  "
    ensures AllWhitespace("  ") && IsTrimmed("TeSt@EXAMPLE.com")
    ensures Lower("TeSt@EXAMPLE.com") + Repeat(' ', 20 - |"TeSt@EXAMPLE.com"|) == "test@example.com    "
  {
    var m := "TeSt@EXAMPLE.com";
    assert m[0] == 'T' && m[15] == 'm';
    assert Lower(m) == "test@example.com";
    assert Repeat(' ', 4) == "    ";
  }

  /** The e-mail response `"  TeSt@EXAMPLE.com  "` in a 20-character field
      under `trim|lower` and right padding gives `test@example.com` and four spaces. */
  lemma EmailExample(p: WriterFieldPlan, ctx: RecordContext)
    requires p.length == 20
    requires p.rule == Some(ParsedRule("F2", Resp("DEM", "EMAIL"), [TrimOp, LowerOp], RightSpace, ""))
    requires ctx.responses == map["DEM:EMAIL" := "  TeSt@EXAMPLE.com  "]
    ensures Resolve(p, ctx) == "test@example.com    "
  {
    var m := "TeSt@EXAMPLE.com";
    EmailTextFacts();
    assert ResponseKey("DEM", "EMAIL") == "DEM:EMAIL";
    TrimLowerResponse(p, ctx, "  ", m, "  ");
  }

  /** A `Date` cell in a column, under `date:yyyymmdd` and in an 8-character
      field, resolves to the eight digits of its calendar date. */
  lemma DateColumn(p: WriterFieldPlan, ctx: RecordContext, iso: string)
    requires p.rule.Some? && p.rule.value.source.Col? && p.rule.value.transforms == [DateYyyymmdd]
    requires p.length == 8
    requires var src := p.rule.value.source;
      src.column in RowOf(src.table, ctx) && RowOf(src.table, ctx)[src.column] == VDate(iso)
    requires IsIsoDatePrefix(iso)
    ensures Resolve(p, ctx) == iso[..4] + iso[5..7] + iso[8..10]
  {
    var rule := p.rule.value;
    var d := RawValue(rule.source, ctx, rule.defaultValue);
    assert d == iso[..10];
    IsoDatePrefixOfPrefix(iso);
    assert IsTrimmed(d) by {
      assert d[0] == d[..4][0] && d[9] == d[8..10][1];
    }
    TrimOfTrimmed(d);
    assert d[..4] == iso[..4] && d[5..7] == iso[5..7] && d[8..10] == iso[8..10];
    ApplyOne(d, DateYyyymmdd);
  }

  /** The calendar date of `2026-02-14T12:34:56.000Z` is `20260214`. */
  lemma IsoTextFacts()
    ensures var iso := "2026-02-14T12:34:56.000Z";
      IsIsoDatePrefix(iso) && iso[..4] + iso[5..7] + iso[8..10] == "20260214"
  {
    var iso := "2026-02-14T12:34:56.000Z";
    assert iso[..4] == "2026" && iso[5..7] == "02" && iso[8..10] == "14";
  }

  /** A `Date` of 2026-02-14, 12:34:56 UTC in `provider_review.certify_date`,
      under `date:yyyymmdd` in an 8-character field, gives `20260214`. */
  lemma CertifyDateExample(p: WriterFieldPlan, ctx: RecordContext)
    requires p.length == 8
    requires p.rule == Some(ParsedRule("F1", Col("PROVIDER_REVIEW", "certify_date"), [DateYyyymmdd], RightSpace, ""))
    requires ctx.providerReview == map["certify_date" := VDate("2026-02-14T12:34:56.000Z")]
    ensures Resolve(p, ctx) == "20260214"
  {
    IsoTextFacts();
    DateColumn(p, ctx, "2026-02-14T12:34:56.000Z");
  }

  lemma LeftZeroExample()
    ensures PadToLength("7", 3, LeftZero) == "007"
  {
    var v := "7";
    var r := PadToLength(v, 3, LeftZero);
    assert r[2..] == v && r[0] == '0' && r[1] == '0';
  }
}
