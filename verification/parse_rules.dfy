/** The three textual mini-languages of a mapping rule and their parsers:
    source expressions (`COL:<TABLE>.<column>`, `RESP:<Q>:<FIELD>`),
    transform pipelines (`trim|lower|date:yyyymmdd`) and pad rules
    (`pad:right:space`, `pad:left:0`). Source expressions and transforms
    fail on unknown input; an unknown pad rule quietly means "no padding rule". */
module ParseRules {
  import opened Common
  import opened Text

  /** Where a raw value comes from. The table name is kept exactly as
      written: the parser never checks it against the known table names. */
  datatype SourceExpr =
    | Col(table: string, column: string)
    | Resp(questionCode: string, fieldName: string)

  datatype TransformOp = TrimOp | LowerOp | DateYyyymmdd

  datatype PadRule = PadNone | RightSpace | LeftZero

  datatype ParsedRule = ParsedRule(
    exportFieldId: string,
    source: SourceExpr,
    transforms: seq<TransformOp>,
    pad: PadRule,
    defaultValue: string)

  /** The errors the parsers throw, each carrying the offending text. */
  datatype ParseError =
    | BadColSource(src: string)
    | BadRespSource(src: string)
    | UnknownSource(src: string)
    | UnknownTransform(token: string)

  // ----- source expressions -----

  /** The textual form of a source expression. */
  function RenderSource(e: SourceExpr): string {
    match e
    case Col(t, c) => "COL:" + t + "." + c
    case Resp(q, f) => "RESP:" + q + ":" + f
  }

  /** Source expressions whose textual form parses back to them: a table
      name without `.`, and question and field codes without `:`. */
  predicate Renderable(e: SourceExpr) {
    match e
    case Col(t, _) => '.' !in t
    case Resp(q, f) => ':' !in q && ':' !in f
  }

  /** A text is its prefix, the part up to a chosen character, that
      character and the rest. */
  lemma SplitAround(src: string, n: nat, k: nat)
    requires n + k < |src|
    ensures src == src[..n] + src[n..][..k] + [src[n..][k]] + src[n..][k + 1..]
  {
    var rest := src[n..];
    assert rest == rest[..k] + [rest[k]] + rest[k + 1..];
    assert src == src[..n] + rest;
  }

  /** The `COL:TABLE.column` branch: table is the text before the first `.`
      after the prefix, column all the text after it. */
  function ParseColSource(src: string): (r: Result<SourceExpr, ParseError>)
    requires "COL:" <= src
    ensures r.Ok? <==> '.' in src[4..]
    ensures r.Ok? ==> r.value.Col? && Renderable(r.value) && RenderSource(r.value) == src
    ensures r.Err? ==> r.error == BadColSource(src)
  {
    var rest := src[4..];
    var dot := IndexOf(rest, '.');
    if dot < 0 then Err(BadColSource(src))
    else
      SplitAround(src, 4, dot);
      Ok(Col(rest[..dot], rest[dot + 1..]))
  }

  /** The `RESP:Q:FIELD` branch: the text after the prefix must hold exactly one `:`. */
  function ParseRespSource(src: string): (r: Result<SourceExpr, ParseError>)
    requires "RESP:" <= src
    ensures r.Ok? <==> multiset(src[5..])[':'] == 1
    ensures r.Ok? ==> r.value.Resp? && Renderable(r.value) && RenderSource(r.value) == src
    ensures r.Err? ==> r.error == BadRespSource(src)
  {
    var parts := Split(src[5..], ':');
    if |parts| != 2 then Err(BadRespSource(src))
    else
      RespText(src, parts);
      Ok(Resp(parts[0], parts[1]))
  }

  /** A `RESP:` text whose remainder splits into two parts is the prefix,
      the first part, the separator and the second part. */
  lemma RespText(src: string, parts: seq<string>)
    requires "RESP:" <= src && |parts| == 2 && Join(parts, ':') == src[5..]
    ensures src == "RESP:" + parts[0] + ":" + parts[1]
  {
    assert Join(parts, ':') == parts[0] + [':'] + parts[1] by {
      assert parts[1..] == [parts[1]];
    }
    assert src == src[..5] + src[5..];
  }

  /** `parseSourceExpression`. Exactly the `COL:` texts with a `.` after the
      prefix and the `RESP:` texts with exactly one `:` after the prefix are
      accepted, and what is accepted prints back to the input text; every
      other text is an error that names which of the three ways it failed. */
  function ParseSourceExpression(src: string): (r: Result<SourceExpr, ParseError>)
    ensures r.Ok? ==> Renderable(r.value) && RenderSource(r.value) == src
    ensures r.Ok? && r.value.Col? <==> "COL:" <= src && '.' in src[4..]
    ensures r.Ok? && r.value.Resp? <==> "RESP:" <= src && multiset(src[5..])[':'] == 1
    ensures r.Err? ==> r.error == (if "COL:" <= src then BadColSource(src)
                                   else if "RESP:" <= src then BadRespSource(src)
                                   else UnknownSource(src))
  {
    if "COL:" <= src then
      assert !("RESP:" <= src) by { assert src[0] == 'C'; }
      ParseColSource(src)
    else if "RESP:" <= src then ParseRespSource(src)
    else Err(UnknownSource(src))
  }

  /** Printing a source expression and parsing the text gives it back. */
  lemma RenderThenParse(e: SourceExpr)
    requires Renderable(e)
    ensures ParseSourceExpression(RenderSource(e)) == Ok(e)
  {
    match e
    case Col(t, c) => ColThenParse(t, c);
    case Resp(q, f) => RespThenParse(q, f);
  }

  /** The `COL:` case of `RenderThenParse`. */
  lemma ColThenParse(t: string, c: string)
    requires '.' !in t
    ensures ParseColSource(RenderSource(Col(t, c))) == Ok(Col(t, c))
  {
    var src := RenderSource(Col(t, c));
    assert src[4..] == t + ("." + c);
    assert IndexOf(src[4..], '.') == |t| by {
      assert src[4..][|t|] == '.';
      assert src[4..][..|t|] == t;
    }
    assert src[4..][|t| + 1..] == c;
  }

  /** The `RESP:` case of `RenderThenParse`. */
  lemma RespThenParse(q: string, f: string)
    requires ':' !in q && ':' !in f
    ensures ParseRespSource(RenderSource(Resp(q, f))) == Ok(Resp(q, f))
  {
    var src := RenderSource(Resp(q, f));
    assert src[5..] == Join([q, f], ':');
    SplitJoin([q, f], ':');
  }

  /** `COL:ASSESSMENT.event_date` is the `event_date` column of `ASSESSMENT`. */
  lemma ColSourceExample()
    ensures ParseSourceExpression("COL:ASSESSMENT.event_date") == Ok(Col("ASSESSMENT", "event_date"))
  {
    var e := Col("ASSESSMENT", "event_date");
    assert RenderSource(e) == "COL:ASSESSMENT.event_date";
    RenderThenParse(e);
  }

  /** `RESP:DEM:LNAME` is the `LNAME` field of question `DEM`. */
  lemma RespSourceExample()
    ensures ParseSourceExpression("RESP:DEM:LNAME") == Ok(Resp("DEM", "LNAME"))
  {
    var e := Resp("DEM", "LNAME");
    assert RenderSource(e) == "RESP:DEM:LNAME";
    RenderThenParse(e);
  }

  /** `WAT:???` has neither prefix and is an error. */
  lemma UnknownSourceExample()
    ensures ParseSourceExpression("WAT:???") == Err(UnknownSource("WAT:???"))
  {
    var src := "WAT:???";
    assert src[0] == 'W';
  }

  // ----- transform pipelines -----

  /** The token that names each transform. */
  function OpName(op: TransformOp): string {
    match op
    case TrimOp => "trim"
    case LowerOp => "lower"
    case DateYyyymmdd => "date:yyyymmdd"
  }

  /** The transform a token names, if any. */
  function OpOfToken(t: string): (r: Option<TransformOp>)
    ensures r.Some? ==> OpName(r.value) == t
    ensures r.None? <==> forall op: TransformOp :: OpName(op) != t
  {
    if t == "trim" then Some(TrimOp)
    else if t == "lower" then Some(LowerOp)
    else if t == "date:yyyymmdd" then Some(DateYyyymmdd)
    else None
  }

  /** The tokens of a pipeline text: `|`-separated, trimmed, empty ones dropped. */
  function PipelineTokens(p: Option<string>): seq<string> {
    TrimmedTokens(Split(Trim(p.GetOr("")), '|'))
  }

  /** Tokens to transforms in order, failing on the first unknown token. */
  function ParseOps(tokens: seq<string>): (r: Result<seq<TransformOp>, ParseError>)
    ensures r.Ok? ==> |r.value| == |tokens|
    ensures r.Ok? ==> forall i :: 0 <= i < |tokens| ==> OpName(r.value[i]) == tokens[i]
    ensures r.Ok? <==> forall i :: 0 <= i < |tokens| ==> OpOfToken(tokens[i]).Some?
    ensures r.Err? ==> exists k :: 0 <= k < |tokens| && r.error == UnknownTransform(tokens[k])
                          && OpOfToken(tokens[k]).None?
                          && forall j :: 0 <= j < k ==> OpOfToken(tokens[j]).Some?
  {
    if tokens == [] then Ok([])
    else match OpOfToken(tokens[0])
      case None => Err(UnknownTransform(tokens[0]))
      case Some(op) =>
        match ParseOps(tokens[1..])
        case Err(e) =>
          assert forall i :: 1 <= i < |tokens| ==> tokens[i] == tokens[1..][i - 1];
          Err(e)
        case Ok(ops) =>
          assert forall i :: 1 <= i < |tokens| ==> tokens[i] == tokens[1..][i - 1];
          Ok([op] + ops)
  }

  /** `parseTransformPipeline`: an absent or blank text is the empty pipeline;
      otherwise one transform per token, in order, or the error naming the
      first token that is not a transform. */
  function ParseTransformPipeline(p: Option<string>): (r: Result<seq<TransformOp>, ParseError>)
    ensures AllWhitespace(p.GetOr("")) ==> r == Ok([])
    ensures r.Ok? ==> |r.value| == |PipelineTokens(p)|
    ensures r.Ok? ==> forall i :: 0 <= i < |r.value| ==> OpName(r.value[i]) == PipelineTokens(p)[i]
    ensures r.Err? ==> exists t :: t in PipelineTokens(p) && OpOfToken(t).None? && r.error == UnknownTransform(t)
    ensures r.Err? ==> var ts := PipelineTokens(p);
      exists k :: 0 <= k < |ts| && r.error == UnknownTransform(ts[k]) && OpOfToken(ts[k]).None?
                  && forall j :: 0 <= j < k ==> OpOfToken(ts[j]).Some?
  {
    var s := Trim(p.GetOr(""));
    if s == "" then
      assert PipelineTokens(p) == [] by {
        assert Split(s, '|') == [""];
      }
      Ok([])
    else ParseOps(PipelineTokens(p))
  }

  function OpNames(ops: seq<TransformOp>): (names: seq<string>)
    ensures |names| == |ops|
    ensures forall i :: 0 <= i < |ops| ==> names[i] == OpName(ops[i])
  {
    if ops == [] then [] else [OpName(ops[0])] + OpNames(ops[1..])
  }

  /** The textual form of a pipeline: its op names joined by `|`. */
  function RenderPipeline(ops: seq<TransformOp>): string {
    Join(OpNames(ops), '|')
  }

  /** Parsing the names of a list of transforms gives that list back. */
  lemma {:induction false} ParseOpNames(ops: seq<TransformOp>)
    ensures ParseOps(OpNames(ops)) == Ok(ops)
  {
    if ops != [] {
      assert OpNames(ops)[1..] == OpNames(ops[1..]);
      ParseOpNames(ops[1..]);
      assert OpOfToken(OpName(ops[0])) == Some(ops[0]) by {
        match ops[0]
        case TrimOp =>
        case LowerOp =>
        case DateYyyymmdd =>
      }
      assert [ops[0]] + ops[1..] == ops;
    }
  }

  /** Printing a pipeline and parsing the text gives it back. */
  lemma PipelineRoundTrip(ops: seq<TransformOp>)
    ensures ParseTransformPipeline(Some(RenderPipeline(ops))) == Ok(ops)
  {
    var names := OpNames(ops);
    var text := RenderPipeline(ops);
    if ops != [] {
      forall i | 0 <= i < |names|
        ensures names[i] != [] && IsTrimmed(names[i]) && '|' !in names[i]
      {
        match ops[i]
        case TrimOp =>
        case LowerOp =>
        case DateYyyymmdd =>
      }
      TokensOfJoin(names);
      ParseOpNames(ops);
    }
  }

  /** `trim|lower|date:yyyymmdd` is the three transforms in that order. */
  lemma PipelineExample()
    ensures ParseTransformPipeline(Some("trim|lower|date:yyyymmdd")) == Ok([TrimOp, LowerOp, DateYyyymmdd])
  {
    PipelineText();
    PipelineRoundTrip([TrimOp, LowerOp, DateYyyymmdd]);
  }

  /** The textual form of the three transforms in order. */
  lemma PipelineText()
    ensures RenderPipeline([TrimOp, LowerOp, DateYyyymmdd]) == "trim|lower|date:yyyymmdd"
  {
    assert OpNames([TrimOp, LowerOp, DateYyyymmdd]) == ["trim", "lower", "date:yyyymmdd"];
    assert Join(["date:yyyymmdd"], '|') == "date:yyyymmdd";
    assert Join(["lower", "date:yyyymmdd"], '|') == "lower|date:yyyymmdd" by {
      assert ["lower", "date:yyyymmdd"][1..] == ["date:yyyymmdd"];
    }
    assert Join(["trim", "lower", "date:yyyymmdd"], '|') == "trim|lower|date:yyyymmdd" by {
      assert ["trim", "lower", "date:yyyymmdd"][1..] == ["lower", "date:yyyymmdd"];
    }
  }

  /** Non-empty trimmed tokens without `|`, joined by `|`, are the tokens
      of the text. */
  lemma TokensOfJoin(tokens: seq<string>)
    requires |tokens| > 0
    requires forall i :: 0 <= i < |tokens| ==> tokens[i] != [] && IsTrimmed(tokens[i]) && '|' !in tokens[i]
    ensures PipelineTokens(Some(Join(tokens, '|'))) == tokens
  {
    JoinIsTrimmed(tokens, '|');
    TrimOfTrimmed(Join(tokens, '|'));
    SplitJoin(tokens, '|');
    TrimmedTokensOfTrimmed(tokens);
  }

  /** A known transform followed by a token that names none fails on
      that token. */
  lemma UnknownSecondOp(op: TransformOp, w: string)
    requires w != [] && IsTrimmed(w) && '|' !in w && OpOfToken(w).None?
    ensures ParseTransformPipeline(Some(OpName(op) + "|" + w)) == Err(UnknownTransform(w))
  {
    var tokens := [OpName(op), w];
    assert tokens[0] != [] && IsTrimmed(tokens[0]) && '|' !in tokens[0] && OpOfToken(tokens[0]) == Some(op) by {
      match op
      case TrimOp =>
      case LowerOp =>
      case DateYyyymmdd =>
    }
    var text := Join(tokens, '|');
    assert text == OpName(op) + "|" + w by {
      assert tokens[1..] == [w];
      assert Join(tokens[1..], '|') == w;
      assert text == tokens[0] + ['|'] + w;
    }
    TokensOfJoin(tokens);
    assert tokens[1..] == [w];
    assert ParseOps([w]) == Err(UnknownTransform(w));
    assert ParseOps(tokens) == Err(UnknownTransform(w));
    assert !AllWhitespace(text) by {
      assert text[0] == tokens[0][0];
    }
  }

  /** `trim|wut` fails on `wut`. */
  lemma UnknownOpExample()
    ensures ParseTransformPipeline(Some("trim|wut")) == Err(UnknownTransform("wut"))
  {
    var w := "wut";
    assert IsTrimmed(w) by { assert w[0] == 'w' && w[2] == 't'; }
    assert OpOfToken(w).None?;
    assert OpName(TrimOp) + "|" + w == "trim|wut";
    UnknownSecondOp(TrimOp, w);
  }

  // ----- pad rules -----

  /** The textual form of a pad rule; `PadNone` is written as nothing. */
  function PadName(r: PadRule): string {
    match r
    case PadNone => ""
    case RightSpace => "pad:right:space"
    case LeftZero => "pad:left:0"
  }

  /** `parsePadRule`: total. The two known texts, after trimming, select their
      rule; anything else, including an absent or blank text, is `PadNone`. */
  function ParsePadRule(p: Option<string>): (r: PadRule)
    ensures r == RightSpace <==> Trim(p.GetOr("")) == "pad:right:space"
    ensures r == LeftZero <==> Trim(p.GetOr("")) == "pad:left:0"
    ensures AllWhitespace(p.GetOr("")) ==> r == PadNone
  {
    var s := Trim(p.GetOr(""));
    if s == "" then PadNone
    else if s == "pad:right:space" then RightSpace
    else if s == "pad:left:0" then LeftZero
    else PadNone
  }

  /** Every pad rule's text parses back to it, whatever whitespace surrounds it. */
  lemma PadRoundTrip(r: PadRule, a: string, b: string)
    requires AllWhitespace(a) && AllWhitespace(b)
    ensures ParsePadRule(Some(a + PadName(r) + b)) == r
  {
    TrimOfPadded(a, PadName(r), b);
  }
}
