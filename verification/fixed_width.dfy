/** The fixed-width line builder: a row of spaces onto which every plan
    entry, in plan order, copies its resolved value at its 1-indexed start
    position. Writes that fall outside the row are dropped, and where
    fields overlap the later one wins. */
module FixedWidth {
  import opened Text
  import opened WriterPlan

  /** A plan entry together with the value it resolved to. */
  datatype Placement = Placement(fieldName: string, startPos: int, length: nat, value: string)

  /** Whether a placement writes the 0-indexed position `p`: it spans its
      declared length from `startPos - 1`, however long its value is. */
  predicate Covers(f: Placement, p: int) {
    f.startPos - 1 <= p < f.startPos - 1 + f.length
  }

  /** What a placement writes at a position it covers: its value's character
      there, or a space where the value is shorter than the declared length. */
  function CharAt(f: Placement, p: int): char
    requires Covers(f, p)
  {
    var i := p - (f.startPos - 1);
    if i < |f.value| then f.value[i] else ' '
  }

  /** Last-writer-wins: the character at `p` comes from the last placement
      that covers it, and is a space when none does. */
  function LastWriter(fs: seq<Placement>, p: int): char {
    if fs == [] then ' '
    else if Covers(fs[|fs| - 1], p) then CharAt(fs[|fs| - 1], p)
    else LastWriter(fs[..|fs| - 1], p)
  }

  /** The line the placements describe, position by position. */
  function LineOf(rowLength: nat, fs: seq<Placement>): (line: string)
    ensures |line| == rowLength
  {
    seq(rowLength, p requires 0 <= p < rowLength => LastWriter(fs, p))
  }

  /** `Array.from({ length: n })` takes a negative length as zero. */
  function Width(rowLength: int): nat {
    if rowLength < 0 then 0 else rowLength
  }

  /** The placement loop of `buildFixedWidthLine`: start from spaces and, for
      each placement in order, write `value[i]` (a space past the value's
      end) at `startPos - 1 + i` for every `i` below the declared length,
      when that position lies inside the row. Also records each field's
      value by name, a later field replacing an earlier one of the same name. */
  method PlaceFields(rowLength: int, fs: seq<Placement>) returns (line: string, fieldValues: map<string, string>)
    ensures line == LineOf(Width(rowLength), fs)
    ensures fieldValues.Keys == set j | 0 <= j < |fs| :: fs[j].fieldName
    ensures forall j :: 0 <= j < |fs| && (forall m :: j < m < |fs| ==> fs[m].fieldName != fs[j].fieldName)
              ==> fieldValues[fs[j].fieldName] == fs[j].value
  {
    var width := Width(rowLength);
    var buf := Repeat(' ', width);
    fieldValues := map[];
    var k := 0;
    while k < |fs|
      invariant 0 <= k <= |fs|
      invariant |buf| == width
      invariant forall p :: 0 <= p < width ==> buf[p] == LastWriter(fs[..k], p)
      invariant fieldValues.Keys == set j | 0 <= j < k :: fs[j].fieldName
      invariant forall j :: 0 <= j < k && (forall m :: j < m < k ==> fs[m].fieldName != fs[j].fieldName)
                  ==> fieldValues[fs[j].fieldName] == fs[j].value
    {
      var f := fs[k];
      var v := f.value;
      fieldValues := fieldValues[f.fieldName := v];
      var startIdx := f.startPos - 1;
      var i := 0;
      while i < f.length
        invariant 0 <= i <= f.length
        invariant |buf| == width
        invariant forall p :: 0 <= p < width ==>
          buf[p] == if startIdx <= p < startIdx + i then CharAt(f, p) else LastWriter(fs[..k], p)
      {
        var bi := startIdx + i;
        if 0 <= bi < |buf| {
          buf := buf[bi := if i < |v| then v[i] else ' '];
        }
        i := i + 1;
      }
      assert fs[..k + 1][..k] == fs[..k];
      k := k + 1;
    }
    assert fs[..|fs|] == fs;
    line := buf;
  }

  /** Each plan entry paired with its resolved value for the record. */
  function Placements(plan: seq<WriterFieldPlan>, ctx: RecordContext): (fs: seq<Placement>)
    ensures |fs| == |plan|
    ensures forall i :: 0 <= i < |plan| ==>
      fs[i] == Placement(plan[i].fieldName, plan[i].startPos, plan[i].length, Resolve(plan[i], ctx))
  {
    seq(|plan|, i requires 0 <= i < |plan| =>
      Placement(plan[i].fieldName, plan[i].startPos, plan[i].length, Resolve(plan[i], ctx)))
  }

  /** `buildFixedWidthLine`: the line has exactly the row length, every
      position holds what the last plan entry covering it writes there (a
      space when none does), and `fieldValues` maps each field name to the
      value of the last entry of that name. */
  method BuildFixedWidthLine(rowLength: int, plan: seq<WriterFieldPlan>, ctx: RecordContext)
    returns (line: string, fieldValues: map<string, string>)
    ensures |line| == Width(rowLength)
    ensures forall p :: 0 <= p < |line| ==> line[p] == LastWriter(Placements(plan, ctx), p)
    ensures fieldValues.Keys == set j | 0 <= j < |plan| :: plan[j].fieldName
    ensures forall j :: 0 <= j < |plan| && (forall m :: j < m < |plan| ==> plan[m].fieldName != plan[j].fieldName)
              ==> fieldValues[plan[j].fieldName] == Resolve(plan[j], ctx)
  {
    var fs := Placements(plan, ctx);
    line, fieldValues := PlaceFields(rowLength, fs);
    assert (set j | 0 <= j < |fs| :: fs[j].fieldName) == (set j | 0 <= j < |plan| :: plan[j].fieldName);
  }

  // ----- properties of the placement semantics -----

  /** A position no placement covers keeps its space. */
  lemma {:induction false} UncoveredStaysSpace(fs: seq<Placement>, p: int)
    requires forall j :: 0 <= j < |fs| ==> !Covers(fs[j], p)
    ensures LastWriter(fs, p) == ' '
  {
    if fs != [] {
      UncoveredStaysSpace(fs[..|fs| - 1], p);
    }
  }

  /** The placement that covers a position and is followed by no other that
      covers it decides that position's character: the character of its
      value at offset `p - (startPos - 1)`, which is below the declared
      length, or a space past the value's end. */
  lemma {:induction false} LastWriterWins(fs: seq<Placement>, p: int, j: nat)
    requires j < |fs| && Covers(fs[j], p)
    requires forall k :: j < k < |fs| ==> !Covers(fs[k], p)
    ensures LastWriter(fs, p) == CharAt(fs[j], p)
    ensures p - (fs[j].startPos - 1) < fs[j].length
  {
    if j < |fs| - 1 {
      LastWriterWins(fs[..|fs| - 1], p, j);
    }
  }

  /** Two placements that share no position can be applied in either order. */
  lemma DisjointPlacementsCommute(fs: seq<Placement>, f: Placement, g: Placement, p: int)
    requires forall q :: !(Covers(f, q) && Covers(g, q))
    ensures LastWriter(fs + [f, g], p) == LastWriter(fs + [g, f], p)
  {
    assert (fs + [f, g])[..|fs| + 1] == fs + [f];
    assert (fs + [g, f])[..|fs| + 1] == fs + [g];
    assert (fs + [f])[..|fs|] == fs;
    assert (fs + [g])[..|fs|] == fs;
  }

  /** A single field `"ABC"` at start 2, length 3, on a row of 10. */
  lemma SingleFieldExample()
    ensures LineOf(10, [Placement("A", 2, 3, "ABC")]) == " ABC      "
  {
    var fs := [Placement("A", 2, 3, "ABC")];
    var line := LineOf(10, fs);
    forall p | 0 <= p < 10
      ensures line[p] == " ABC      "[p]
    {
      if 1 <= p < 4 { LastWriterWins(fs, p, 0); } else { UncoveredStaysSpace(fs, p); }
    }
  }

  /** `"HELLO"` at 1 (length 5), then `"ZZ"` at 4 (length 2), on a row of 6:
      the later field overwrites positions 4 and 5. */
  lemma OverlapExample()
    ensures LineOf(6, [Placement("F1", 1, 5, "HELLO"), Placement("F2", 4, 2, "ZZ")]) == "HELZZ "
  {
    var fs := [Placement("F1", 1, 5, "HELLO"), Placement("F2", 4, 2, "ZZ")];
    var line := LineOf(6, fs);
    forall p | 0 <= p < 6
      ensures line[p] == "HELZZ "[p]
    {
      if 3 <= p < 5 { LastWriterWins(fs, p, 1); }
      else if p < 3 { LastWriterWins(fs, p, 0); }
      else { UncoveredStaysSpace(fs, p); }
    }
  }
}
