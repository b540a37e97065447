/** The pure part of the layout-spec importer: reading an enumeration out of
    a field's free-text values column (`M=Male, F=Female`) and guessing the
    field's value domain from that column and the field's name. */
module SpecImport {
  import opened Common
  import opened Text
  import Validate

  /** One row of the imported layout spec. Only the name and the values
      column take part in guessing a domain. */
  datatype ExportFieldRow = ExportFieldRow(
    order: int,
    questionCode: Option<string>,
    fieldName: string,
    length: int,
    startPos: int,
    endPos: int,
    description: Option<string>,
    valuesSpecRaw: Option<string>)

  datatype EnumPair = EnumPair(code: string, meaning: string)

  datatype DomainType = TextDomain | DateDomain | DodidDomain | EnumYnDomain | EnumDomain | SpecRawDomain

  /** The `domain_type` text stored for each domain. */
  function DomainTypeName(d: DomainType): string {
    match d
    case TextDomain => "TEXT"
    case DateDomain => "DATE_YYYYMMDD"
    case DodidDomain => "DODID10"
    case EnumYnDomain => "ENUM_YN"
    case EnumDomain => "ENUM"
    case SpecRawDomain => "SPEC_RAW"
  }

  datatype DomainGuess = DomainGuess(domainType: DomainType, rawSpec: string, enumPairs: Option<seq<EnumPair>>)

  // ----- quote stripping -----

  predicate AllQuotes(s: string) {
    forall i :: 0 <= i < |s| ==> s[i] == '"'
  }

  /** Neither starts nor ends with `"`. */
  predicate Unquoted(s: string) {
    s == [] || (s[0] != '"' && s[|s| - 1] != '"')
  }

  function DropLeadingQuotes(s: string): (r: string)
    ensures |r| <= |s| && r == s[|s| - |r|..]
    ensures AllQuotes(s[..|s| - |r|])
    ensures r == [] || r[0] != '"'
  {
    if |s| > 0 && s[0] == '"' then
      var r := DropLeadingQuotes(s[1..]);
      assert s[1..][..|s| - 1 - |r|] == s[1..|s| - |r|];
      r
    else s
  }

  function DropTrailingQuotes(s: string): (r: string)
    ensures |r| <= |s| && r == s[..|r|]
    ensures AllQuotes(s[|r|..])
    ensures r == [] || r[|r| - 1] != '"'
  {
    if |s| > 0 && s[|s| - 1] == '"' then
      var r := DropTrailingQuotes(s[..|s| - 1]);
      assert s[..|s| - 1][|r|..] == s[|r|..|s| - 1];
      r
    else s
  }

  /** `s.replace(/^"+|"+$/g, "")`: the leading run of `"` goes, then the
      trailing run of what is left (so a text of quotes only becomes empty). */
  function StripQuotes(s: string): (r: string)
    ensures Unquoted(r)
    ensures var t := DropLeadingQuotes(s); r <= t && AllQuotes(t[|r|..])
  {
    var t := DropLeadingQuotes(s);
    var r := DropTrailingQuotes(t);
    assert Unquoted(r) by {
      if r != [] {
        assert r[0] == t[0];
      }
    }
    r
  }

  /** Stripping quotes a second time changes nothing. */
  lemma StripQuotesIdempotent(s: string)
    ensures StripQuotes(StripQuotes(s)) == StripQuotes(s)
  {
    StripQuotesOfUnquoted(StripQuotes(s));
  }

  /** A text that neither starts nor ends with a quote is kept as it is. */
  lemma StripQuotesOfUnquoted(s: string)
    requires Unquoted(s)
    ensures StripQuotes(s) == s
  {
  }

  // ----- enumerations -----

  /** `s.trim().replace(/^"+|"+$/g, "")`: a code or meaning as stored. */
  function Clean(s: string): (r: string)
    ensures Unquoted(r)
  {
    StripQuotes(Trim(s))
  }

  /** One comma-separated part of a values column, already trimmed: a pair
      when its first `=` is at index 1 or later and the code, trimmed and
      unquoted, is not empty. */
  function PairOf(t: string): (r: Option<EnumPair>)
    ensures var eq := IndexOf(t, '=');
      r.Some? <==> eq >= 1 && Clean(t[..eq]) != []
    ensures var eq := IndexOf(t, '=');
      r.Some? ==> && r.value.code == Clean(t[..eq])
                  && r.value.meaning == Clean(t[eq + 1..])
    ensures r.Some? ==> r.value.code != [] && Unquoted(r.value.code) && Unquoted(r.value.meaning)
  {
    var eq := IndexOf(t, '=');
    if eq < 1 then None
    else
      var code := Clean(t[..eq]);
      var meaning := Clean(t[eq + 1..]);
      if code == [] then None else Some(EnumPair(code, meaning))
  }

  /** A part splits at its first `=`: the code is the cleaned text before
      it, the meaning the cleaned text after it, further `=` included. */
  lemma PairOfFirstEquals(c: string, m: string)
    requires '=' !in c
    ensures var t := c + "=" + m;
      && IndexOf(t, '=') == |c|
      && PairOf(t) == if c == [] || Clean(c) == [] then None
                      else Some(EnumPair(Clean(c), Clean(m)))
  {
    var t := c + "=" + m;
    assert t[|c|] == '=' && t[..|c|] == c && t[|c| + 1..] == m;
  }

  /** The parts of a values column: split on `,`, trimmed, empty ones dropped. */
  function EnumParts(raw: string): seq<string> {
    TrimmedTokens(Split(raw, ','))
  }

  /** `parseEnumPairs`: absent when the text holds no `=` or yields no pair;
      otherwise the pairs of the text's comma-separated parts, in input order. */
  function ParseEnumPairs(raw: string): (r: Option<seq<EnumPair>>)
    ensures r.Some? <==> '=' in raw && FilterMap(PairOf, EnumParts(raw)) != []
    ensures r.Some? ==> r.value == FilterMap(PairOf, EnumParts(raw))
  {
    if '=' !in raw then None
    else
      var pairs := FilterMap(PairOf, EnumParts(raw));
      if pairs == [] then None else Some(pairs)
  }

  /** The text yields pairs exactly when it holds `=` and one of its parts
      is a pair. */
  lemma ParsedPairsExist(raw: string)
    ensures ParseEnumPairs(raw).Some? <==>
      '=' in raw && exists j :: 0 <= j < |EnumParts(raw)| && PairOf(EnumParts(raw)[j]).Some?
  {
    FilterMapMembers(PairOf, EnumParts(raw));
  }

  /** `ps` are the pairs of `parts`: each is the pair of some part, each
      part that is a pair gives one of them, and every code is clean. */
  predicate PairsOfParts(ps: seq<EnumPair>, parts: seq<string>) {
    && (forall i :: 0 <= i < |ps| ==>
          exists j :: 0 <= j < |parts| && PairOf(parts[j]) == Some(ps[i]))
    && (forall j :: 0 <= j < |parts| && PairOf(parts[j]).Some? ==> PairOf(parts[j]).value in ps)
    && (forall i :: 0 <= i < |ps| ==> CleanCode(ps[i]))
  }

  /** The parsed pairs are the pairs of the text's parts. */
  lemma ParsedPairsComeFromParts(raw: string)
    ensures ParseEnumPairs(raw).Some? ==> PairsOfParts(ParseEnumPairs(raw).value, EnumParts(raw))
  {
    PairsComeFromParts(EnumParts(raw));
  }

  /** `ParsedPairsComeFromParts` for any list of parts. */
  lemma PairsComeFromParts(parts: seq<string>)
    ensures PairsOfParts(FilterMap(PairOf, parts), parts)
  {
    FilterMapMembers(PairOf, parts);
    PairCodesClean(parts);
  }

  /** Every parsed code is non-empty and unquoted. */
  lemma PairCodesClean(parts: seq<string>)
    ensures var ps := FilterMap(PairOf, parts);
      forall i :: 0 <= i < |ps| ==> CleanCode(ps[i])
  {
    forall t | PairOf(t).Some?
      ensures CleanCode(PairOf(t).value)
    {
    }
    FilterMapKeeps(PairOf, parts, CleanCode);
  }

  /** A code as a pair keeps it: not empty, and not starting or ending with `"`. */
  predicate CleanCode(p: EnumPair) {
    p.code != [] && Unquoted(p.code)
  }

  /** The text `code=meaning` of a pair. */
  function PairText(p: EnumPair): string {
    p.code + "=" + p.meaning
  }

  function PairTexts(ps: seq<EnumPair>): (ts: seq<string>)
    ensures |ts| == |ps|
    ensures forall i :: 0 <= i < |ps| ==> ts[i] == PairText(ps[i])
  {
    seq(|ps|, i requires 0 <= i < |ps| => PairText(ps[i]))
  }

  /** Pairs that print back unchanged: a non-empty code without `=`, and
      neither code nor meaning holding `,` or having whitespace or `"` at
      either end. */
  predicate Printable(p: EnumPair) {
    && p.code != [] && '=' !in p.code
    && ',' !in p.code && ',' !in p.meaning
    && IsTrimmed(p.code) && Unquoted(p.code)
    && IsTrimmed(p.meaning) && Unquoted(p.meaning)
  }

  /** The first `=` of a pair's text is the one after the code. */
  lemma PairTextSplits(p: EnumPair)
    requires p.code != [] && '=' !in p.code
    ensures IndexOf(PairText(p), '=') == |p.code|
    ensures PairText(p)[..|p.code|] == p.code
    ensures PairText(p)[|p.code| + 1..] == p.meaning
  {
    var t := PairText(p);
    assert t[|p.code|] == '=';
    assert t[..|p.code|] == p.code;
  }

  lemma PairTextTrimmed(p: EnumPair)
    requires p.code != [] && IsTrimmed(p.code) && IsTrimmed(p.meaning)
    ensures PairText(p) != [] && IsTrimmed(PairText(p))
  {
    var t := PairText(p);
    assert t[0] == p.code[0];
    if p.meaning != [] {
      assert t[|t| - 1] == p.meaning[|p.meaning| - 1];
    } else {
      assert t[|t| - 1] == '=';
    }
  }

  lemma PairTextHasNoComma(p: EnumPair)
    requires ',' !in p.code && ',' !in p.meaning
    ensures ',' !in PairText(p)
  {
  }

  /** A text already trimmed and unquoted comes out of trimming and
      unquoting as it went in. */
  lemma CleanOfClean(s: string)
    requires IsTrimmed(s) && Unquoted(s)
    ensures Clean(s) == s
  {
    TrimOfTrimmed(s);
    StripQuotesOfUnquoted(s);
  }

  /** A printable pair's text is a part that reads back as that pair. */
  lemma PairTextParses(p: EnumPair)
    requires Printable(p)
    ensures PairOf(PairText(p)) == Some(p)
    ensures PairText(p) != [] && IsTrimmed(PairText(p)) && ',' !in PairText(p)
  {
    var t := PairText(p);
    PairTextSplits(p);
    PairTextTrimmed(p);
    PairTextHasNoComma(p);
    CleanOfClean(p.code);
    CleanOfClean(p.meaning);
    assert Clean(t[..|p.code|]) == p.code;
    assert Clean(t[|p.code| + 1..]) == p.meaning;
  }

  /** The texts of printable pairs are non-empty trimmed parts without a
      comma, each reading back as its pair. */
  lemma PairTextsParse(ps: seq<EnumPair>)
    requires forall i :: 0 <= i < |ps| ==> Printable(ps[i])
    ensures var ts := PairTexts(ps);
      forall i :: 0 <= i < |ts| ==> PairOf(ts[i]) == Some(ps[i]) && ts[i] != [] && IsTrimmed(ts[i]) && ',' !in ts[i]
  {
    var ts := PairTexts(ps);
    forall i | 0 <= i < |ts|
      ensures PairOf(ts[i]) == Some(ps[i]) && ts[i] != [] && IsTrimmed(ts[i]) && ',' !in ts[i]
    {
      PairTextParses(ps[i]);
    }
  }

  /** Non-empty trimmed parts without a comma, joined by `,`, split back into themselves. */
  lemma PartsOfJoin(ts: seq<string>)
    requires |ts| > 0
    requires forall i :: 0 <= i < |ts| ==> ts[i] != [] && IsTrimmed(ts[i]) && ',' !in ts[i]
    ensures EnumParts(Join(ts, ',')) == ts
  {
    SplitJoin(ts, ',');
    TrimmedTokensOfTrimmed(ts);
  }

  /** The first part of a join starts the joined text. */
  lemma {:induction false} JoinStartsWithFirst(parts: seq<string>, sep: char)
    requires |parts| > 0
    ensures parts[0] <= Join(parts, sep)
  {
  }

  /** Printing pairs as `code=meaning` joined by `,` and parsing the text
      gives the pairs back. */
  lemma EnumPairsRoundTrip(ps: seq<EnumPair>)
    requires |ps| > 0
    requires forall i :: 0 <= i < |ps| ==> Printable(ps[i])
    ensures ParseEnumPairs(Join(PairTexts(ps), ',')) == Some(ps)
  {
    var ts := PairTexts(ps);
    var raw := Join(ts, ',');
    PairTextsParse(ps);
    PartsOfJoin(ts);
    FilterMapAllAccepted(PairOf, ts, ps);
    assert '=' in raw by {
      JoinStartsWithFirst(ts, ',');
      assert IndexOf(ts[0], '=') >= 1;
      assert raw[IndexOf(ts[0], '=')] == '=';
    }
  }

  // ----- domain guessing -----

  /** The values column as the guess reads it: trimmed, absent as empty. */
  function SpecText(f: ExportFieldRow): string {
    Trim(f.valuesSpecRaw.GetOr(""))
  }

  predicate IsTextSpec(raw: string) {
    raw == "" || Lower(raw) == "text field"
  }

  predicate IsDateSpec(raw: string) {
    Contains(raw, "YYYYMMDD") || ContainsIgnoreCase(raw, "date")
  }

  predicate IsDodid(f: ExportFieldRow, raw: string) {
    Upper(f.fieldName) == "DODID" || Contains(raw, "9999999999")
  }

  predicate IsCheckedSpec(raw: string) {
    ContainsIgnoreCase(raw, "checked") && Contains(raw, "Y") && Contains(raw, "N")
  }

  const YesNoPairs: seq<EnumPair> := [EnumPair("Y", "Yes"), EnumPair("N", "No")]

  /** `guessDomain`: the first test that holds decides, in this order:
      a blank or "text field" spec is TEXT, a date spec DATE_YYYYMMDD, a
      DODID name or all-nines spec DODID10, a "checked" spec naming Y and N
      ENUM_YN with the yes/no pairs, a spec with enumeration pairs ENUM with
      those pairs, and anything else SPEC_RAW. The recorded spec is the
      trimmed text, or "Text Field" when that is blank, so it is never empty. */
  function GuessDomain(f: ExportFieldRow): (g: DomainGuess)
    ensures var raw := SpecText(f);
      && g.rawSpec == (if raw == "" then "Text Field" else raw)
      && g.rawSpec != [] && IsTrimmed(g.rawSpec)
      && (g.domainType == TextDomain <==> IsTextSpec(raw))
      && (g.domainType == DateDomain <==> !IsTextSpec(raw) && IsDateSpec(raw))
      && (g.domainType == DodidDomain <==> !IsTextSpec(raw) && !IsDateSpec(raw) && IsDodid(f, raw))
      && (g.domainType == EnumYnDomain <==>
            !IsTextSpec(raw) && !IsDateSpec(raw) && !IsDodid(f, raw) && IsCheckedSpec(raw))
      && (g.domainType == EnumDomain <==>
            !IsTextSpec(raw) && !IsDateSpec(raw) && !IsDodid(f, raw) && !IsCheckedSpec(raw)
            && ParseEnumPairs(raw).Some?)
      && (g.enumPairs.Some? <==> g.domainType in {EnumYnDomain, EnumDomain})
      && (g.domainType == EnumYnDomain ==> g.enumPairs == Some(YesNoPairs))
      && (g.domainType == EnumDomain ==> g.enumPairs == ParseEnumPairs(raw))
  {
    var raw := SpecText(f);
    if IsTextSpec(raw) then DomainGuess(TextDomain, if raw == "" then "Text Field" else raw, None)
    else if IsDateSpec(raw) then DomainGuess(DateDomain, raw, None)
    else if IsDodid(f, raw) then DomainGuess(DodidDomain, raw, None)
    else if IsCheckedSpec(raw) then DomainGuess(EnumYnDomain, raw, Some(YesNoPairs))
    else match ParseEnumPairs(raw)
      case Some(pairs) => DomainGuess(EnumDomain, raw, Some(pairs))
      case None => DomainGuess(SpecRawDomain, raw, None)
  }

  /** The guess reads nothing of a row but its name and its trimmed values column. */
  lemma GuessReadsNameAndSpecText(f: ExportFieldRow, g: ExportFieldRow)
    requires f.fieldName == g.fieldName && SpecText(f) == SpecText(g)
    ensures GuessDomain(f) == GuessDomain(g)
  {
  }

  /** Whitespace around the values column does not change the guess, and an
      absent column is guessed as a blank one. */
  lemma GuessIgnoresSurroundingWhitespace(f: ExportFieldRow, a: string, s: string, b: string)
    requires AllWhitespace(a) && AllWhitespace(b) && IsTrimmed(s)
    ensures GuessDomain(f.(valuesSpecRaw := Some(a + s + b))) == GuessDomain(f.(valuesSpecRaw := Some(s)))
    ensures GuessDomain(f.(valuesSpecRaw := None)) == GuessDomain(f.(valuesSpecRaw := Some("")))
  {
    var f1, f2 := f.(valuesSpecRaw := Some(a + s + b)), f.(valuesSpecRaw := Some(s));
    assert SpecText(f1) == SpecText(f2) by {
      TrimOfPadded(a, s, b);
      TrimOfTrimmed(s);
    }
    GuessReadsNameAndSpecText(f1, f2);
    GuessReadsNameAndSpecText(f.(valuesSpecRaw := None), f.(valuesSpecRaw := Some("")));
  }

  /** The two domains the validator checks are stored under exactly the
      names it compares against. */
  lemma ValidatedDomainNames()
    ensures DomainTypeName(DodidDomain) == Validate.DodidDomain
    ensures DomainTypeName(DateDomain) == Validate.DateDomain
  {
  }
}
