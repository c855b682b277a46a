/** A notation for attributes that can be read back, so that what SaveAndLoad asks of the JSON
    library can be had: of one library, for all characters. */
module AttributeTexts {
  import opened Basics
  import opened KeyOrder
  import opened NameTrees
  import opened AttributeTables
  import opened Attributes

  lemma Regroup(a: string, b: string, c: string)
    ensures (a + b) + c == a + (b + c)
  {
  }

  lemma HeadBack(x: char, s: string, y: char, t: string)
    requires [x] + s == [y] + t
    ensures x == y && s == t
  {
    assert ([x] + s)[0] == x && ([y] + t)[0] == y;
    assert ([x] + s)[1..] == s && ([y] + t)[1..] == t;
  }

  lemma SameParts<T>(a: seq<T>, b: seq<T>)
    requires a != [] && b != [] && a[0] == b[0] && a[1..] == b[1..]
    ensures a == b
  {
    assert a == [a[0]] + a[1..] && b == [b[0]] + b[1..];
  }

  function OfNat(n: nat): string {
    if n == 0 then ['.'] else ['1'] + OfNat(n - 1)
  }

  lemma {:induction false} NatBack(a: nat, b: nat, r: string, q: string)
    requires OfNat(a) + r == OfNat(b) + q
    ensures a == b && r == q
  {
    var s, t := if a == 0 then r else OfNat(a - 1) + r, if b == 0 then q else OfNat(b - 1) + q;
    if a > 0 {
      Regroup(['1'], OfNat(a - 1), r);
    }
    if b > 0 {
      Regroup(['1'], OfNat(b - 1), q);
    }
    HeadBack(if a == 0 then '.' else '1', s, if b == 0 then '.' else '1', t);
    if a > 0 {
      NatBack(a - 1, b - 1, r, q);
    }
  }

  function OfText(t: string): string {
    OfNat(|t|) + t
  }

  lemma TextBack(a: string, b: string, r: string, q: string)
    requires OfText(a) + r == OfText(b) + q
    ensures a == b && r == q
  {
    Regroup(OfNat(|a|), a, r);
    Regroup(OfNat(|b|), b, q);
    NatBack(|a|, |b|, a + r, b + q);
    assert (a + r)[..|a|] == a && (b + q)[..|b|] == b && (a + r)[|a|..] == r && (b + q)[|b|..] == q;
  }

  function OfInt(i: int): string {
    [if i < 0 then '-' else '+'] + OfNat(if i < 0 then -i else i)
  }

  lemma IntBack(a: int, b: int, r: string, q: string)
    requires OfInt(a) + r == OfInt(b) + q
    ensures a == b && r == q
  {
    var x, y := if a < 0 then '-' else '+', if b < 0 then '-' else '+';
    var m: nat, n: nat := if a < 0 then -a else a, if b < 0 then -b else b;
    Regroup([x], OfNat(m), r);
    Regroup([y], OfNat(n), q);
    HeadBack(x, OfNat(m) + r, y, OfNat(n) + q);
    NatBack(m, n, r, q);
  }

  function Tag(v: Value): char {
    match v
    case Null => 'n'
    case Bool(b) => if b then 't' else 'f'
    case Number(_, _) => 'd'
    case Text(_) => 's'
  }

  function Body(v: Value): string {
    match v
    case Null => []
    case Bool(_) => []
    case Number(m, e) => OfInt(m) + OfInt(e)
    case Text(t) => OfText(t)
  }

  lemma NumberBack(m: int, e: int, n: int, f: int, r: string, q: string)
    requires (OfInt(m) + OfInt(e)) + r == (OfInt(n) + OfInt(f)) + q
    ensures m == n && e == f && r == q
  {
    Regroup(OfInt(m), OfInt(e), r);
    Regroup(OfInt(n), OfInt(f), q);
    IntBack(m, n, OfInt(e) + r, OfInt(f) + q);
    IntBack(e, f, r, q);
  }

  lemma BodyBack(a: Value, b: Value, r: string, q: string)
    requires Tag(a) == Tag(b) && Body(a) + r == Body(b) + q
    ensures a == b && r == q
  {
    if a.Number? {
      NumberBack(a.mantissa, a.exponent, b.mantissa, b.exponent, r, q);
    } else if a.Text? {
      TextBack(a.s, b.s, r, q);
    } else {
      assert [] + r == r && [] + q == q;
    }
  }

  function OfField(f: Field): string {
    OfText(f.name) + ([Tag(f.value)] + Body(f.value))
  }

  lemma FieldBack(a: Field, b: Field, r: string, q: string)
    requires OfField(a) + r == OfField(b) + q
    ensures a == b && r == q
  {
    Regroup(OfText(a.name), [Tag(a.value)] + Body(a.value), r);
    Regroup(OfText(b.name), [Tag(b.value)] + Body(b.value), q);
    TextBack(a.name, b.name, [Tag(a.value)] + Body(a.value) + r, [Tag(b.value)] + Body(b.value) + q);
    Regroup([Tag(a.value)], Body(a.value), r);
    Regroup([Tag(b.value)], Body(b.value), q);
    HeadBack(Tag(a.value), Body(a.value) + r, Tag(b.value), Body(b.value) + q);
    BodyBack(a.value, b.value, r, q);
  }

  function OfFields(o: seq<Field>): (t: string)
    ensures t != "" && !Blank(t[0]) && !Blank(t[|t| - 1])
  {
    if o == [] then ['.'] else [','] + (OfField(o[0]) + OfFields(o[1..]))
  }

  function Behind(o: seq<Field>, r: string): string {
    if o == [] then r else OfField(o[0]) + (OfFields(o[1..]) + r)
  }

  lemma FieldsSplit(o: seq<Field>, r: string)
    ensures OfFields(o) + r == [if o == [] then '.' else ','] + Behind(o, r)
  {
    if o != [] {
      Regroup([','], OfField(o[0]) + OfFields(o[1..]), r);
      Regroup(OfField(o[0]), OfFields(o[1..]), r);
    }
  }

  lemma {:induction false} FieldsBack(a: seq<Field>, b: seq<Field>, r: string, q: string)
    requires OfFields(a) + r == OfFields(b) + q
    ensures a == b && r == q
  {
    FieldsSplit(a, r);
    FieldsSplit(b, q);
    HeadBack(if a == [] then '.' else ',', Behind(a, r), if b == [] then '.' else ',', Behind(b, q));
    if a != [] {
      FieldBack(a[0], b[0], OfFields(a[1..]) + r, OfFields(b[1..]) + q);
      FieldsBack(a[1..], b[1..], r, q);
      SameParts(a, b);
    }
  }

  function OfBranches(d: seq<Branch>): string {
    if d == [] then ['.'] else [','] + (OfText(d[0].name) + (OfFields(d[0].fields) + OfBranches(d[1..])))
  }

  lemma {:induction false} BranchesBack(a: seq<Branch>, b: seq<Branch>)
    requires OfBranches(a) == OfBranches(b)
    ensures a == b
  {
    assert OfBranches(a)[0] == (if a == [] then '.' else ',') && OfBranches(b)[0] == (if b == [] then '.' else ',');
    if a != [] {
      var x, y := a[0], b[0];
      var s, t := OfFields(x.fields) + OfBranches(a[1..]), OfFields(y.fields) + OfBranches(b[1..]);
      HeadBack(',', OfText(x.name) + s, ',', OfText(y.name) + t);
      TextBack(x.name, y.name, s, t);
      FieldsBack(x.fields, y.fields, OfBranches(a[1..]), OfBranches(b[1..]));
      BranchesBack(a[1..], b[1..]);
      SameParts(a, b);
    }
  }

  ghost function FieldsIn(t: string): Option<seq<Field>> {
    if o :| OfFields(o) == t then Some(o) else None
  }

  ghost function BranchesIn(t: string): Option<seq<Branch>> {
    if d :| OfBranches(d) == t then Some(d) else None
  }

  lemma FieldsRead(o: seq<Field>)
    ensures FieldsIn(OfFields(o)) == Some(o) && Strip(OfFields(o)) == Some(OfFields(o))
  {
    var t := OfFields(o);
    var p := FieldsIn(t).value;
    FieldsBack(o, p, "", "");
  }

  /** One library that reads back everything it writes: every character can be saved and loaded. */
  lemma LibraryExists() returns (c: Cjson)
    ensures forall d: seq<Branch> :: GivesBack(c, d)
  {
    c := Cjson(OfFields, FieldsIn, OfBranches, BranchesIn);
    forall d: seq<Branch>
      ensures GivesBack(c, d)
    {
      forall b <- d
        ensures FieldsIn(OfFields(b.fields)) == Some(b.fields) && Strip(OfFields(b.fields)) == Some(OfFields(b.fields))
      {
        FieldsRead(b.fields);
      }
      var p := BranchesIn(OfBranches(d)).value;
      BranchesBack(d, p);
    }
  }

  /** With it any run of texts, saved and loaded, gives back what the run wrote last. */
  method WriteSaveAndLoad(c: Cjson, jss: seq<Source>) returns (loaded: Character)
    requires (forall d: seq<Branch> :: GivesBack(c, d)) && forall js <- jss :: Readable(c, js)
    ensures loaded.Valid()
    ensures forall a, s :: Cell(Contents(loaded.sources), s, a) == LastWritten(WritesOf(c, jss), a, s)
    ensures forall a, s :: Cell(Contents(loaded.attribs), a, s) == LastWritten(WritesOf(c, jss), a, s)
  {
    var pc := new Character();
    pc.AddAll(c, jss);
    ghost var ws := WritesOf(c, jss);
    RunKeepsTransposed(map[], map[], ws);
    loaded := SaveAndLoad(c, pc);
    forall a, s
      ensures Cell(SourcesRun(map[], ws), s, a) == LastWritten(ws, a, s)
      ensures Cell(AttribsRun(map[], ws), a, s) == LastWritten(ws, a, s)
    {
      RunHoldsLastWritten(map[], ws, a, s);
      assert Cell(AttribsRun(map[], ws), a, s) == Cell(SourcesRun(map[], ws), s, a);
    }
  }

  /** A library and a text of one attribute for it. */
  lemma Example() returns (c: Cjson, js: Source)
    ensures (forall d: seq<Branch> :: GivesBack(c, d)) && Readable(c, js)
    ensures LastWritten(WritesOf(c, [js]), "sex", "core-pc") == Some(Value.Number(1, 0))
  {
    c := LibraryExists();
    var o := [Field("sex", Value.Number(1, 0))];
    js := Source("core-pc", c.render(o));
    var d := [Branch("core-pc", o)];
    assert GivesBack(c, d) && d[0] in d;
    SourcesAreWrites(c, d);
    assert SourcesOf(c, d) == [js] && WritesIn(d) == [Write("core-pc", o)];
    assert Folded("sex") == "sex" && Folded("core-pc") == "core-pc";
    assert LastField(o, "sex") == Some(Value.Number(1, 0));
  }
}
