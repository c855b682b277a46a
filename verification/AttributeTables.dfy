/** corefunc/json_attribs.c on finite maps: what a character's two attribute indexes hold. Names
    stand for themselves up to letter case, so the maps are keyed by folded names. */
module AttributeTables {
  import opened Basics
  import opened KeyOrder

  /** A scalar JSON value. A number is mantissa times a power of ten, as every double is. */
  datatype Value = Null | Bool(b: bool) | Number(mantissa: int, exponent: int) | Text(s: string)
  datatype Field = Field(name: string, value: Value)

  /** One write: the fields of one JSON object, under one source. */
  datatype Write = Write(source: string, fields: seq<Field>)

  type Row = map<string, Value>
  type Table = map<string, Row>

  function RowOf(m: Table, a: string): Row {
    if a in m then m[a] else map[]
  }

  function Cell(m: Table, a: string, b: string): Option<Value> {
    if b in RowOf(m, a) then Some(RowOf(m, a)[b]) else None
  }

  function Written(m: Table, a: string, b: string, v: Value): Table {
    m[a := RowOf(m, a)[b := v]]
  }

  /** A row after the fields of a JSON object, in order. */
  function Filled(row: Row, fields: seq<Field>): Row {
    if fields == [] then row
    else var f := fields[|fields| - 1]; Filled(row, fields[..|fields| - 1])[Folded(f.name) := f.value]
  }

  /** The index by source, then attribute. */
  function SourcesAfter(m: Table, w: Write): Table {
    m[Folded(w.source) := Filled(RowOf(m, Folded(w.source)), w.fields)]
  }

  /** The index by attribute, then source. */
  function AttribsAfter(m: Table, source: string, fields: seq<Field>): Table {
    if fields == [] then m
    else
      var f := fields[|fields| - 1];
      Written(AttribsAfter(m, source, fields[..|fields| - 1]), Folded(f.name), Folded(source), f.value)
  }

  lemma OneFieldMore(m: Table, row: Row, source: string, fields: seq<Field>, i: nat)
    requires i < |fields|
    ensures AttribsAfter(m, source, fields[..i + 1])
         == Written(AttribsAfter(m, source, fields[..i]), Folded(fields[i].name), Folded(source), fields[i].value)
    ensures Filled(row, fields[..i + 1]) == Filled(row, fields[..i])[Folded(fields[i].name) := fields[i].value]
  {
    assert fields[..i + 1][..i] == fields[..i];
  }

  lemma OneField(m: Table, source: string, f: Field)
    ensures AttribsAfter(m, source, [f]) == Written(m, Folded(f.name), Folded(source), f.value)
    ensures SourcesAfter(m, Write(source, [f])) == Written(m, Folded(source), Folded(f.name), f.value)
  {
    var fields := [f];
    assert fields[..|fields| - 1] == [];
    assert Filled(RowOf(m, Folded(source)), fields) == RowOf(m, Folded(source))[Folded(f.name) := f.value];
  }

  /** The last value that a list of fields gives an attribute. */
  function LastField(fields: seq<Field>, a: string): Option<Value> {
    if fields == [] then None
    else
      var f := fields[|fields| - 1];
      if Folded(f.name) == a then Some(f.value) else LastField(fields[..|fields| - 1], a)
  }

  /** The last value that a list of writes gives an attribute under a source. */
  function LastWritten(ws: seq<Write>, a: string, s: string): Option<Value> {
    if ws == [] then None
    else
      var w := ws[|ws| - 1];
      if Folded(w.source) == s && LastField(w.fields, a).Some? then LastField(w.fields, a)
      else LastWritten(ws[..|ws| - 1], a, s)
  }

  /** Field k of write i is of this attribute and source. */
  predicate Sets(ws: seq<Write>, i: nat, k: nat, a: string, s: string) {
    && i < |ws| && k < |ws[i].fields|
    && Folded(ws[i].source) == s && Folded(ws[i].fields[k].name) == a
  }

  lemma {:induction false} LastFieldMeans(fields: seq<Field>, a: string)
    ensures match LastField(fields, a)
      case None => forall k :: 0 <= k < |fields| ==> Folded(fields[k].name) != a
      case Some(v) => exists k :: 0 <= k < |fields| && Folded(fields[k].name) == a && fields[k].value == v
                        && forall l :: k < l < |fields| ==> Folded(fields[l].name) != a
  {
    if fields != [] && Folded(fields[|fields| - 1].name) != a {
      LastFieldMeans(fields[..|fields| - 1], a);
    }
  }

  /** What was written last is the value of a field that no later one overwrote. */
  lemma {:induction false} LastWrittenMeans(ws: seq<Write>, a: string, s: string)
    ensures match LastWritten(ws, a, s)
      case None => forall i: nat, k: nat :: !Sets(ws, i, k, a, s)
      case Some(v) => exists i: nat, k: nat :: Sets(ws, i, k, a, s) && ws[i].fields[k].value == v
                        && forall j: nat, l: nat :: Sets(ws, j, l, a, s) ==> j < i || (j == i && l <= k)
  {
    if ws != [] {
      var n, w := |ws| - 1, ws[|ws| - 1];
      LastFieldMeans(w.fields, a);
      if Folded(w.source) == s && LastField(w.fields, a).Some? {
        var v := LastField(w.fields, a).value;
        var k: nat :| k < |w.fields| && Folded(w.fields[k].name) == a && w.fields[k].value == v
                      && forall l :: k < l < |w.fields| ==> Folded(w.fields[l].name) != a;
        assert Sets(ws, n, k, a, s);
      } else {
        LastWrittenMeans(ws[..n], a, s);
        assert forall k: nat :: !Sets(ws, n, k, a, s);
        assert forall i: nat, k: nat :: i < n ==> (Sets(ws, i, k, a, s) <==> Sets(ws[..n], i, k, a, s));
      }
    }
  }

  function Or<T>(o: Option<T>, other: Option<T>): Option<T> {
    if o.Some? then o else other
  }

  lemma {:induction false} FilledCell(row: Row, fields: seq<Field>, a: string)
    ensures var r := Filled(row, fields);
      (if a in r then Some(r[a]) else None) == Or(LastField(fields, a), if a in row then Some(row[a]) else None)
  {
    if fields != [] {
      FilledCell(row, fields[..|fields| - 1], a);
    }
  }

  lemma SourcesCell(m: Table, w: Write, a: string, s: string)
    ensures Cell(SourcesAfter(m, w), s, a)
         == if s == Folded(w.source) then Or(LastField(w.fields, a), Cell(m, s, a)) else Cell(m, s, a)
  {
    FilledCell(RowOf(m, Folded(w.source)), w.fields, a);
  }

  lemma {:induction false} AttribsCell(m: Table, source: string, fields: seq<Field>, a: string, s: string)
    ensures Cell(AttribsAfter(m, source, fields), a, s)
         == if s == Folded(source) then Or(LastField(fields, a), Cell(m, a, s)) else Cell(m, a, s)
  {
    if fields != [] {
      AttribsCell(m, source, fields[..|fields| - 1], a, s);
    }
  }

  /** One index is the other turned round. */
  ghost predicate Transposed(attribs: Table, sources: Table) {
    forall a, s :: Cell(attribs, a, s) == Cell(sources, s, a)
  }

  /** No attribute is kept that has no source. */
  ghost predicate NoEmptyRow(m: Table) {
    forall a :: a in m ==> m[a] != map[]
  }

  lemma WriteKeepsTransposed(attribs: Table, sources: Table, w: Write)
    requires Transposed(attribs, sources)
    ensures Transposed(AttribsAfter(attribs, w.source, w.fields), SourcesAfter(sources, w))
  {
    forall a, s
      ensures Cell(AttribsAfter(attribs, w.source, w.fields), a, s) == Cell(SourcesAfter(sources, w), s, a)
    {
      AttribsCell(attribs, w.source, w.fields, a, s);
      SourcesCell(sources, w, a, s);
      assert Cell(attribs, a, s) == Cell(sources, s, a);
    }
  }

  lemma {:induction false} WriteLeavesNoEmptyRow(m: Table, source: string, fields: seq<Field>)
    requires NoEmptyRow(m)
    ensures NoEmptyRow(AttribsAfter(m, source, fields))
  {
    if fields != [] {
      WriteLeavesNoEmptyRow(m, source, fields[..|fields| - 1]);
      var f := fields[|fields| - 1];
      var before := AttribsAfter(m, source, fields[..|fields| - 1]);
      assert Folded(source) in RowOf(before, Folded(f.name))[Folded(source) := f.value];
    }
  }

  // ---- runs of writes ----

  function SourcesRun(m: Table, ws: seq<Write>): Table {
    if ws == [] then m else SourcesAfter(SourcesRun(m, ws[..|ws| - 1]), ws[|ws| - 1])
  }

  function AttribsRun(m: Table, ws: seq<Write>): Table {
    if ws == [] then m
    else AttribsAfter(AttribsRun(m, ws[..|ws| - 1]), ws[|ws| - 1].source, ws[|ws| - 1].fields)
  }

  lemma RunAppend(m: Table, ws: seq<Write>, w: Write)
    ensures SourcesRun(m, ws + [w]) == SourcesAfter(SourcesRun(m, ws), w)
    ensures AttribsRun(m, ws + [w]) == AttribsAfter(AttribsRun(m, ws), w.source, w.fields)
  {
    assert (ws + [w])[..|ws|] == ws;
  }

  /** Whatever is written, the indexes stay transposes of each other, and under every attribute
      and source they hold the value written there last. */
  lemma {:induction false} RunKeepsTransposed(attribs: Table, sources: Table, ws: seq<Write>)
    requires Transposed(attribs, sources) && NoEmptyRow(attribs)
    ensures Transposed(AttribsRun(attribs, ws), SourcesRun(sources, ws)) && NoEmptyRow(AttribsRun(attribs, ws))
  {
    if ws != [] {
      var front, w := ws[..|ws| - 1], ws[|ws| - 1];
      RunKeepsTransposed(attribs, sources, front);
      WriteKeepsTransposed(AttribsRun(attribs, front), SourcesRun(sources, front), w);
      WriteLeavesNoEmptyRow(AttribsRun(attribs, front), w.source, w.fields);
    }
  }

  lemma {:induction false} RunHoldsLastWritten(sources: Table, ws: seq<Write>, a: string, s: string)
    ensures Cell(SourcesRun(sources, ws), s, a) == Or(LastWritten(ws, a, s), Cell(sources, s, a))
  {
    if ws != [] {
      RunHoldsLastWritten(sources, ws[..|ws| - 1], a, s);
      SourcesCell(SourcesRun(sources, ws[..|ws| - 1]), ws[|ws| - 1], a, s);
    }
  }

  /** The index by source determines the other one. */
  lemma TransposeIsUnique(m: Table, n: Table, sources: Table)
    requires Transposed(m, sources) && Transposed(n, sources) && NoEmptyRow(m) && NoEmptyRow(n)
    ensures m == n
  {
    forall a
      ensures RowOf(m, a) == RowOf(n, a)
    {
      forall s
        ensures (s in RowOf(m, a) <==> s in RowOf(n, a)) && (s in RowOf(m, a) ==> RowOf(m, a)[s] == RowOf(n, a)[s])
      {
        assert Cell(m, a, s) == Cell(sources, s, a) == Cell(n, a, s);
      }
    }
    forall a
      ensures a in m <==> a in n
      ensures a in m ==> m[a] == n[a]
    {
      assert RowOf(m, a) == RowOf(n, a);
    }
  }
}
