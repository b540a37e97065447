/** Splitting a SQL script into the batches the schema loader sends one at a
    time: lines holding only `GO` (in any case, with any surrounding
    whitespace) separate batches and belong to none, each batch is the
    trimmed text of the lines between two separators, and blank batches are
    dropped. */
module SchemaApply {
  import opened Common
  import opened Text

  /** One `\r` at the end of a line, as left by a `\r\n` line break, goes. */
  function DropCR(l: string): (r: string)
    ensures r == l || (l == r + "\r")
  {
    if |l| > 0 && l[|l| - 1] == '\r' then l[..|l| - 1] else l
  }

  /** `text.split(/\r?\n/)`: split at every `\n`, and drop the `\r` that
      directly precedes each `\n`. The last line is not followed by a line
      break, so it keeps a final `\r`. */
  function Lines(text: string): (ls: seq<string>)
    ensures |ls| == |Split(text, '\n')|
    ensures forall i :: 0 <= i < |ls| ==> '\n' !in ls[i]
    ensures forall i :: 0 <= i < |ls| ==>
      ls[i] == if i < |ls| - 1 then DropCR(Split(text, '\n')[i]) else Split(text, '\n')[i]
  {
    DropCRs(Split(text, '\n'))
  }

  /** Every part but the last loses a final `\r`. */
  function DropCRs(parts: seq<string>): (ls: seq<string>)
    ensures |ls| == |parts|
    ensures forall i :: 0 <= i < |ls| ==> ls[i] == if i < |parts| - 1 then DropCR(parts[i]) else parts[i]
  {
    seq(|parts|, i requires 0 <= i < |parts| => if i < |parts| - 1 then DropCR(parts[i]) else parts[i])
  }

  lemma DropCRsCons(p: string, ps: seq<string>)
    requires |ps| > 0
    ensures DropCRs([p] + ps) == [DropCR(p)] + DropCRs(ps)
  {
    var ls, ms := DropCRs([p] + ps), DropCRs(ps);
    assert forall i :: 1 <= i < |ls| ==> ([p] + ps)[i] == ps[i - 1];
    assert ls == [DropCR(p)] + ms;
  }

  /** Every character of a part is a character of the joined text. */
  lemma {:induction false} JoinHoldsParts(parts: seq<string>, sep: char, i: int, c: char)
    requires 0 <= i < |parts| && c in parts[i]
    ensures c in Join(parts, sep)
    decreases |parts|
  {
    if |parts| > 1 {
      assert Join(parts, sep) == parts[0] + [sep] + Join(parts[1..], sep);
      if i > 0 {
        assert parts[1..][i - 1] == parts[i];
        JoinHoldsParts(parts[1..], sep, i - 1, c);
      }
    }
  }

  /** Without `\r` the lines join back into the text. */
  lemma LinesJoin(text: string)
    requires '\r' !in text
    ensures Join(Lines(text), '\n') == text
  {
    var parts := Split(text, '\n');
    forall i | 0 <= i < |parts|
      ensures DropCR(parts[i]) == parts[i]
    {
      if |parts[i]| > 0 && parts[i][|parts[i]| - 1] == '\r' {
        JoinHoldsParts(parts, '\n', i, '\r');
      }
    }
    assert Lines(text) == parts;
  }

  /** `/^\s*GO\s*$/i`: after trimming, the line is `GO` in any case. Without
      the `u` flag only `g`, `G`, `o` and `O` match the letters case-blind. */
  predicate IsGoLine(l: string) {
    Upper(Trim(l)) == "GO"
  }

  /** The number of separator lines. */
  function GoCount(ls: seq<string>): nat {
    if ls == [] then 0
    else GoCount(ls[..|ls| - 1]) + if IsGoLine(ls[|ls| - 1]) then 1 else 0
  }

  /** The lines between separators, in order: a separator closes the current
      group and opens an empty one, any other line joins the current group.
      The last group is the one still open when the lines run out. */
  function Groups(ls: seq<string>): (gs: seq<seq<string>>)
    ensures |gs| == GoCount(ls) + 1
  {
    if ls == [] then [[]]
    else
      var gs := Groups(ls[..|ls| - 1]);
      var l := ls[|ls| - 1];
      if IsGoLine(l) then gs + [[]]
      else gs[..|gs| - 1] + [gs[|gs| - 1] + [l]]
  }

  /** One more line either opens a new group or extends the last one. */
  lemma GroupsSnoc(ls: seq<string>, l: string)
    ensures var gs := Groups(ls);
      Groups(ls + [l]) ==
        if IsGoLine(l) then gs + [[]] else gs[..|gs| - 1] + [gs[|gs| - 1] + [l]]
  {
    assert (ls + [l])[..|ls|] == ls;
  }

  lemma GroupsStep(ls: seq<string>, k: int)
    requires 0 <= k < |ls|
    ensures var gs := Groups(ls[..k]);
      Groups(ls[..k + 1]) ==
        if IsGoLine(ls[k]) then gs + [[]] else gs[..|gs| - 1] + [gs[|gs| - 1] + [ls[k]]]
  {
    assert ls[..k + 1][..k] == ls[..k];
  }

  /** One more line, seen with the closed groups and the open one in hand. */
  lemma GroupsAdvance(ls: seq<string>, k: int, done: seq<seq<string>>, cur: seq<string>)
    requires 0 <= k < |ls| && Groups(ls[..k]) == done + [cur]
    ensures IsGoLine(ls[k]) ==> Groups(ls[..k + 1]) == (done + [cur]) + [[]]
    ensures !IsGoLine(ls[k]) ==> Groups(ls[..k + 1]) == done + [cur + [ls[k]]]
  {
    GroupsStep(ls, k);
    assert (done + [cur])[..|done|] == done;
  }

  /** The batch a group makes: its lines joined by `\n` and trimmed, unless
      that is blank. */
  function Emit(group: seq<string>): (b: Option<string>)
    ensures b.Some? ==> b.value != [] && IsTrimmed(b.value)
    ensures b.None? <==> AllWhitespace(Join(group, '\n'))
  {
    var joined := Trim(Join(group, '\n'));
    if joined == [] then None else Some(joined)
  }

  /** A group's batch is its trimmed text. */
  lemma EmitIsTrimmedText(g: seq<string>)
    ensures Emit(g).Some? ==> Emit(g).value == Trim(Join(g, '\n'))
  {
  }

  /** The batches of a list of lines. */
  function Batches(ls: seq<string>): seq<string> {
    FilterMap(Emit, Groups(ls))
  }

  /** A group added at the end adds its batch, if it has one, at the end. */
  lemma EmitOneMore(done: seq<seq<string>>, cur: seq<string>)
    ensures FilterMap(Emit, done + [cur]) ==
      FilterMap(Emit, done) + match Emit(cur) case Some(b) => [b] case None => []
  {
    FilterMapSnoc(Emit, done, cur);
  }

  /** Every batch is non-empty and trimmed, and there are no more of them
      than groups. */
  lemma BatchesAreTrimmed(ls: seq<string>)
    ensures forall i :: 0 <= i < |Batches(ls)| ==> Batches(ls)[i] != [] && IsTrimmed(Batches(ls)[i])
    ensures |Batches(ls)| <= GoCount(ls) + 1
  {
    var gs := Groups(ls);
    var bs := Batches(ls);
    FilterMapMembers(Emit, gs);
    forall i | 0 <= i < |bs|
      ensures bs[i] != [] && IsTrimmed(bs[i])
    {
      var j :| 0 <= j < |gs| && Emit(gs[j]) == Some(bs[i]);
    }
  }

  /** `splitGoBatches`: one pass over the lines with the current group in
      hand, emitting it at each separator and once more at the end. It
      computes the batches of the text's lines: each non-empty and trimmed,
      no more of them than separators plus one. */
  method SplitGoBatches(text: string) returns (batches: seq<string>)
    ensures batches == Batches(Lines(text))
    ensures forall i :: 0 <= i < |batches| ==> batches[i] != [] && IsTrimmed(batches[i])
    ensures |batches| <= GoCount(Lines(text)) + 1
  {
    var lines := Lines(text);
    batches := [];
    var cur: seq<string> := [];
    ghost var done: seq<seq<string>> := [];
    var k := 0;
    while k < |lines|
      invariant 0 <= k <= |lines|
      invariant Groups(lines[..k]) == done + [cur]
      invariant batches == FilterMap(Emit, done)
    {
      var line := lines[k];
      GroupsAdvance(lines, k, done, cur);
      if IsGoLine(line) {
        EmitOneMore(done, cur);
        var joined := Emit(cur);
        if joined.Some? {
          batches := batches + [joined.value];
        }
        done := done + [cur];
        cur := [];
      } else {
        cur := cur + [line];
      }
      k := k + 1;
    }
    assert lines[..k] == lines;
    EmitOneMore(done, cur);
    var tail := Emit(cur);
    if tail.Some? {
      batches := batches + [tail.value];
    }
    BatchesAreTrimmed(lines);
  }

  /** None of the lines is a separator. */
  predicate NoSeparator(g: seq<string>) {
    forall j :: 0 <= j < |g| ==> !IsGoLine(g[j])
  }

  /** No group holds a separator line. */
  lemma {:induction false} GroupsHoldNoSeparator(ls: seq<string>)
    ensures forall i :: 0 <= i < |Groups(ls)| ==> NoSeparator(Groups(ls)[i])
  {
    if ls != [] {
      var init, l := ls[..|ls| - 1], ls[|ls| - 1];
      var gs, hs := Groups(init), Groups(ls);
      GroupsHoldNoSeparator(init);
      if IsGoLine(l) {
        assert hs == gs + [[]];
        forall i | 0 <= i < |hs|
          ensures NoSeparator(hs[i])
        {
          if i < |gs| {
            assert hs[i] == gs[i];
          }
        }
      } else {
        assert hs == gs[..|gs| - 1] + [gs[|gs| - 1] + [l]];
        NoSeparatorSnoc(gs[|gs| - 1], l);
        forall i | 0 <= i < |hs|
          ensures NoSeparator(hs[i])
        {
          if i < |gs| - 1 {
            assert hs[i] == gs[i];
          }
        }
      }
    }
  }

  /** A group without separators stays so when a line that is no separator
      joins it. */
  lemma NoSeparatorSnoc(g: seq<string>, l: string)
    requires NoSeparator(g) && !IsGoLine(l)
    ensures NoSeparator(g + [l])
  {
    forall j | 0 <= j < |g| + 1
      ensures !IsGoLine((g + [l])[j])
    {
      if j < |g| {
        assert (g + [l])[j] == g[j];
      }
    }
  }

  /** The groups laid end to end. */
  function Flatten(gs: seq<seq<string>>): seq<string> {
    if gs == [] then [] else Flatten(gs[..|gs| - 1]) + gs[|gs| - 1]
  }

  /** The lines that are not separators, in their order. */
  function NonSeparators(ls: seq<string>): seq<string> {
    if ls == [] then []
    else NonSeparators(ls[..|ls| - 1]) + if IsGoLine(ls[|ls| - 1]) then [] else [ls[|ls| - 1]]
  }

  /** The groups hold every non-separator line exactly once, in the order of
      the input: separators are dropped and nothing is moved. */
  lemma {:induction false} GroupsKeepOrder(ls: seq<string>)
    ensures Flatten(Groups(ls)) == NonSeparators(ls)
  {
    if ls != [] {
      var init := ls[..|ls| - 1];
      var gs := Groups(init);
      GroupsKeepOrder(init);
      var l := ls[|ls| - 1];
      if IsGoLine(l) {
        FlattenOpenGroup(gs);
      } else {
        FlattenExtendLast(gs, l);
      }
    }
  }

  /** Opening an empty group adds no lines. */
  lemma FlattenOpenGroup(gs: seq<seq<string>>)
    ensures Flatten(gs + [[]]) == Flatten(gs)
  {
    assert (gs + [[]])[..|gs|] == gs;
  }

  /** Extending the last group appends the line to the flattened groups. */
  lemma FlattenExtendLast(gs: seq<seq<string>>, l: string)
    requires gs != []
    ensures Flatten(gs[..|gs| - 1] + [gs[|gs| - 1] + [l]]) == Flatten(gs) + [l]
  {
    var front := gs[..|gs| - 1];
    assert (front + [gs[|gs| - 1] + [l]])[..|gs| - 1] == front;
    assert Flatten(gs) == Flatten(front) + gs[|gs| - 1];
  }

  /** Lines without a separator form one group. */
  lemma {:induction false} NoSeparatorOneGroup(ls: seq<string>)
    requires GoCount(ls) == 0
    ensures Groups(ls) == [ls]
  {
    if ls != [] {
      var init, l := ls[..|ls| - 1], ls[|ls| - 1];
      NoSeparatorInit(ls);
      NoSeparatorOneGroup(init);
      var gs := [init];
      assert gs[..|gs| - 1] == [] && gs[|gs| - 1] == init;
      assert Groups(ls) == [init + [l]];
      FrontLast(ls);
    }
  }

  /** Without separators, the last line is none and the others have none. */
  lemma NoSeparatorInit(ls: seq<string>)
    requires ls != [] && GoCount(ls) == 0
    ensures GoCount(ls[..|ls| - 1]) == 0 && !IsGoLine(ls[|ls| - 1])
  {
  }

  /** A script without separator lines is one batch, its trimmed text, or
      none when that is blank; each `\r\n` in it counts as a `\n`. */
  lemma NoSeparatorOneBatch(text: string)
    requires GoCount(Lines(text)) == 0
    ensures var whole := Trim(Join(Lines(text), '\n'));
      Batches(Lines(text)) == if whole == [] then [] else [whole]
    ensures '\r' !in text ==>
      Batches(Lines(text)) == if Trim(text) == [] then [] else [Trim(text)]
  {
    NoSeparatorOneGroup(Lines(text));
    FilterMapCons(Emit, [Lines(text)]);
    if '\r' !in text {
      LinesJoin(text);
    }
  }

  /** Each batch made from some groups is the trimmed text of one of them. */
  lemma BatchesComeFromGroups(gs: seq<seq<string>>)
    ensures forall i :: 0 <= i < |FilterMap(Emit, gs)| ==>
      exists j :: 0 <= j < |gs| && FilterMap(Emit, gs)[i] == Trim(Join(gs[j], '\n'))
  {
    var bs := FilterMap(Emit, gs);
    FilterMapMembers(Emit, gs);
    forall i | 0 <= i < |bs|
      ensures exists j :: 0 <= j < |gs| && bs[i] == Trim(Join(gs[j], '\n'))
    {
      var j :| 0 <= j < |gs| && Emit(gs[j]) == Some(bs[i]);
      EmitIsTrimmedText(gs[j]);
    }
  }

  /** Each group whose text is not blank gives a batch. */
  lemma GroupsGiveBatches(ls: seq<string>)
    ensures forall j :: 0 <= j < |Groups(ls)| && !AllWhitespace(Join(Groups(ls)[j], '\n')) ==>
      Trim(Join(Groups(ls)[j], '\n')) in Batches(ls)
  {
    var gs := Groups(ls);
    var bs := Batches(ls);
    FilterMapMembers(Emit, gs);
    forall j | 0 <= j < |gs| && !AllWhitespace(Join(gs[j], '\n'))
      ensures Trim(Join(gs[j], '\n')) in bs
    {
      assert Emit(gs[j]).Some?;
      assert Emit(gs[j]).value in bs;
    }
  }

  /** A line followed by a line break is cut off as the first line, without
      the `\r` of a Windows line break; the rest of the text gives the rest of
      the lines. */
  lemma LinesCons(first: string, rest: string)
    requires '\n' !in first
    ensures Lines(first + "\n" + rest) == [DropCR(first)] + Lines(rest)
  {
    SplitCons(first, rest);
    DropCRsCons(first, Split(rest, '\n'));
  }

  lemma SplitCons(first: string, rest: string)
    requires '\n' !in first
    ensures Split(first + "\n" + rest, '\n') == [first] + Split(rest, '\n')
  {
    var t := first + "\n" + rest;
    assert t[|first|] == '\n' && t[..|first|] == first && t[|first| + 1..] == rest;
    assert IndexOf(t, '\n') == |first|;
    SplitAtFirst(t, '\n');
  }

  /** A text without line break is one line, kept as it is. */
  lemma LinesOfOneLine(t: string)
    requires '\n' !in t
    ensures Lines(t) == [t]
  {
    SplitAtFirst(t, '\n');
  }

  /** A trimmed line of other than two characters is no separator. */
  lemma NotTwoLettersNoSeparator(l: string)
    requires IsTrimmed(l) && |l| != 2
    ensures !IsGoLine(l)
  {
    TrimOfTrimmed(l);
  }

  /** `go` is a separator. */
  lemma LowerGoIsSeparator()
    ensures IsGoLine("go")
  {
    TrimOfTrimmed("go");
    assert Upper("go")[0] == 'G' && Upper("go")[1] == 'O';
  }

  /** Two lines around a separator make two groups of one line each. */
  lemma GroupsAroundSeparator(a: string, g: string, b: string)
    requires !IsGoLine(a) && IsGoLine(g) && !IsGoLine(b)
    ensures Groups([a, g, b]) == [[a], [b]]
  {
    var gs := Groups([a, g]);
    GroupsOfLineAndSeparator(a, g);
    GroupsSnoc([a, g], b);
    assert [a, g] + [b] == [a, g, b];
    var gs3 := Groups([a, g, b]);
    assert gs3 == gs[..1] + [gs[1] + [b]];
    assert gs3[0] == [a] && gs3[1] == [b];
  }

  /** A line and then a separator: the line's group, then an empty one. */
  lemma GroupsOfLineAndSeparator(a: string, g: string)
    requires !IsGoLine(a) && IsGoLine(g)
    ensures Groups([a, g]) == [[a], []]
  {
    GroupsOfOneLine(a);
    GroupsSnoc([a], g);
    assert [a] + [g] == [a, g];
  }

  /** A single line that is no separator is a single group. */
  lemma GroupsOfOneLine(a: string)
    requires !IsGoLine(a)
    ensures Groups([a]) == [[a]]
  {
    GroupsSnoc([], a);
    assert [] + [a] == [a];
    assert [[]][..0] + [[] + [a]] == [[a]];
  }

  /** Two trimmed statements around a separator are two batches. */
  lemma BatchesAroundSeparator(a: string, g: string, b: string)
    requires a != [] && IsTrimmed(a) && !IsGoLine(a)
    requires b != [] && IsTrimmed(b) && !IsGoLine(b)
    requires IsGoLine(g)
    ensures Batches([a, g, b]) == [a, b]
  {
    GroupsAroundSeparator(a, g, b);
    TrimOfTrimmed(a);
    TrimOfTrimmed(b);
    assert Join([a], '\n') == a && Join([b], '\n') == b;
    assert Emit([a]) == Some(a) && Emit([b]) == Some(b);
    FilterMapCons(Emit, [[a], [b]]);
    assert [[a], [b]][1..] == [[b]];
    FilterMapCons(Emit, [[b]]);
    assert [[b]][1..] == [];
  }

  /** The lines of three one-line texts joined by line breaks. */
  lemma LinesOfThree(a: string, b: string, c: string)
    requires '\n' !in a && '\n' !in b && '\n' !in c
    ensures Lines(a + "\n" + (b + "\n" + c)) == [DropCR(a), DropCR(b), c]
  {
    LinesCons(a, b + "\n" + c);
    LinesCons(b, c);
    LinesOfOneLine(c);
  }

  /** The same with a `\r\n` as the second line break. */
  lemma ThreeLines(a: string, g: string, b: string)
    requires '\n' !in a && '\n' !in g && '\n' !in b
    ensures Lines(a + "\n" + g + "\r\n" + b) == [DropCR(a), g, b]
  {
    var gr := g + "\r";
    assert '\n' !in gr;
    assert a + "\n" + g + "\r\n" + b == a + "\n" + (gr + "\n" + b);
    LinesOfThree(a, gr, b);
  }

  /** Two one-line statements around a separator line that ends in a
      Windows line break are two batches: the `\r` does not stop the line
      from being a separator. */
  lemma TwoStatementScript(a: string, g: string, b: string)
    requires '\n' !in a && '\n' !in g && '\n' !in b
    requires a != [] && IsTrimmed(a) && !IsGoLine(a) && a[|a| - 1] != '\r'
    requires b != [] && IsTrimmed(b) && !IsGoLine(b)
    requires IsGoLine(g)
    ensures Batches(Lines(a + "\n" + g + "\r\n" + b)) == [a, b]
  {
    ThreeLines(a, g, b);
    BatchesAroundSeparator(a, g, b);
  }
}
