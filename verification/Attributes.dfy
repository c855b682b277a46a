/** corefunc/json_attribs.c: the two attribute trees of a character, and saving and loading them. */
module Attributes {
  import opened Basics
  import opened Shapes
  import opened KeyOrder
  import opened NameTrees
  import opened AttributeTables

  type SubTree = Tree<Entry<Value>>
  type TopTree = Tree<Entry<SubTree>>

  /** What the cJSON library does with objects of scalars and with objects of those. */
  datatype Branch = Branch(name: string, fields: seq<Field>)
  datatype Cjson = Cjson(render: seq<Field> -> string, parse: string -> Option<seq<Field>>,
                         renderAll: seq<Branch> -> string, parseAll: string -> Option<seq<Branch>>)

  datatype Source = Source(source: string, json: string)

  predicate Blank(c: char) {
    c == ' ' || c == '\t' || c == '\r' || c == '\n'
  }

  function TrimEnd(s: string): string {
    if s != "" && Blank(s[|s| - 1]) then TrimEnd(s[..|s| - 1]) else s
  }

  function TrimStart(s: string): string {
    if s != "" && Blank(s[0]) then TrimStart(s[1..]) else s
  }

  /** strip_whitespace: NULL if there is nothing but white space. */
  function Strip(s: string): Option<string> {
    if TrimStart(s) == "" then None else Some(TrimEnd(TrimStart(s)))
  }

  predicate BlankCode(n: int) {
    n == 32 || n == 9 || n == 13 || n == 10
  }

  /** What is left of a text is what its longest blank prefix and suffix leave. */
  lemma {:induction false} TrimEndMeans(s: string)
    ensures var t := TrimEnd(s);
      && t <= s && (t != "" ==> !BlankCode(t[|t| - 1] as int))
      && forall i :: |t| <= i < |s| ==> BlankCode(s[i] as int)
  {
    if s != "" && Blank(s[|s| - 1]) {
      TrimEndMeans(s[..|s| - 1]);
    }
  }

  lemma {:induction false} TrimStartMeans(s: string)
    ensures var t := TrimStart(s); var k := |s| - |t|;
      && 0 <= k && s == s[..k] + t && (t != "" ==> !BlankCode(t[0] as int))
      && forall c <- s[..k] :: BlankCode(c as int)
  {
    if s != "" && Blank(s[0]) {
      TrimStartMeans(s[1..]);
      var k := |s| - |TrimStart(s)|;
      assert s[..k] == [s[0]] + s[1..][..k - 1];
    }
  }

  /** From k on stands t, with blanks around it. */
  predicate StandsAt(s: string, t: string, k: nat) {
    && k + |t| <= |s| && t == s[k..k + |t|]
    && forall i :: 0 <= i < |s| && !(k <= i < k + |t|) ==> BlankCode(s[i] as int)
  }

  lemma StripMeans(s: string)
    ensures match Strip(s)
      case None => forall c <- s :: BlankCode(c as int)
      case Some(t) =>
        && t != "" && !BlankCode(t[0] as int) && !BlankCode(t[|t| - 1] as int)
        && exists k: nat :: StandsAt(s, t, k)
  {
    TrimStartMeans(s);
    var u := TrimStart(s);
    var k: nat, t := |s| - |u|, TrimEnd(u);
    TrimEndMeans(u);
    if u == "" {
      assert s[..k] == s;
    } else {
      assert t != "";
      assert t == u[..|t|] == s[k..k + |t|];
      forall i | 0 <= i < |s| && !(k <= i < k + |t|)
        ensures BlankCode(s[i] as int)
      {
        if i >= k {
          assert s[i] == u[i - k];
        } else {
          assert s[i] in s[..k];
        }
      }
      assert StandsAt(s, t, k);
    }
  }

  /** Parsing undoes printing for these objects. */
  predicate GivesBack(c: Cjson, d: seq<Branch>) {
    && (forall b <- d ::
          && c.parse(c.render(b.fields)) == Some(b.fields)
          && Strip(c.render(b.fields)).Some? && c.parse(Strip(c.render(b.fields)).value) == Some(b.fields))
    && c.parseAll(c.renderAll(d)) == Some(d)
  }

  // ---- two-level trees ----

  ghost function TableOf(m: map<string, SubTree>): Table {
    map n | n in m :: View(m[n])
  }

  ghost predicate AllInOrder(m: map<string, SubTree>) {
    forall n :: n in m ==> Sorted(Inorder(m[n])) && Balanced(m[n])
  }

  /** The two-level map in a tree of trees. */
  ghost function Contents(t: TopTree): Table {
    TableOf(View(t))
  }

  /** Both levels are in order, and the lower trees are balanced. */
  ghost predicate Deep(t: TopTree) {
    Sorted(Inorder(t)) && AllInOrder(View(t))
  }

  lemma TableUpdate(m: map<string, SubTree>, n: string, sub: SubTree)
    ensures TableOf(m[n := sub]) == TableOf(m)[n := View(sub)]
  {
  }

  lemma OrderUpdate(m: map<string, SubTree>, n: string, sub: SubTree)
    requires AllInOrder(m) && Sorted(Inorder(sub)) && Balanced(sub)
    ensures AllInOrder(m[n := sub])
  {
  }

  lemma DeepUpdate(t: TopTree, u: TopTree, n: string, sub: SubTree)
    requires Deep(t) && Sorted(Inorder(u)) && View(u) == View(t)[n := sub]
    requires Sorted(Inorder(sub)) && Balanced(sub)
    ensures Deep(u) && Contents(u) == Contents(t)[n := View(sub)]
  {
    TableUpdate(View(t), n, sub);
    OrderUpdate(View(t), n, sub);
  }

  /** BalancedBTreeFind, then replace the item or add a new one. */
  method Store<V>(t: Tree<Entry<V>>, n: string, v: V, rebalance: bool) returns (u: Tree<Entry<V>>)
    requires Sorted(Inorder(t))
    ensures Sorted(Inorder(u)) && View(u) == View(t)[Folded(n) := v]
    ensures Balanced(t) && (rebalance || Folded(n) in View(t)) ==> Balanced(u)
  {
    FoundInView(t, n);
    if Found(t, n).Some? {
      u := Reassigned(t, n, v);
      ReassignedShape(t, n, v);
      ReassignedSorted(t, n, v);
      ReassignedView(t, n, v);
    } else {
      u := Insert(t, Entry(n, v), Probe(n));
      InsertedSorted(t, n, v);
      InsertedView(t, n, v);
      if rebalance {
        u := Rebalance(u);
      }
    }
  }

  lemma UpdateTwice(m: Table, n: string, a: Row, b: Row)
    ensures m[n := a][n := b] == m[n := b]
  {
  }

  lemma UpdateSame(m: Table, n: string)
    requires n in m
    ensures m[n := RowOf(m, n)] == m
  {
  }

  /** The lower tree of a name, found or made. */
  method Open(t: TopTree, n: string, rebalance: bool) returns (u: TopTree, sub: SubTree)
    requires Deep(t)
    ensures Deep(u) && Sorted(Inorder(sub)) && Balanced(sub) && View(sub) == RowOf(Contents(t), Folded(n))
    ensures Contents(u) == Contents(t)[Folded(n) := RowOf(Contents(t), Folded(n))] && Folded(n) in View(u)
    ensures Balanced(t) && rebalance ==> Balanced(u)
  {
    FoundInView(t, n);
    match Found(t, n)
    case Some(found) =>
      u, sub := t, found;
      UpdateSame(Contents(t), Folded(n));
    case None =>
      sub := Leaf;
      u := Store(t, n, sub, rebalance);
      DeepUpdate(t, u, Folded(n), Leaf);
  }

  /** The lower tree has been changed. */
  method Change(t: TopTree, n: string, sub: SubTree) returns (u: TopTree)
    requires Deep(t) && Folded(n) in View(t) && Sorted(Inorder(sub)) && Balanced(sub)
    ensures Deep(u) && Contents(u) == Contents(t)[Folded(n) := View(sub)]
    ensures Balanced(t) ==> Balanced(u)
  {
    u := Store(t, n, sub, false);
    DeepUpdate(t, u, Folded(n), sub);
  }

  /** The writes that a list of texts amounts to: white space alone writes nothing. */
  predicate Readable(c: Cjson, js: Source) {
    Strip(js.json).Some? ==> c.parse(Strip(js.json).value).Some?
  }

  function WritesOf(c: Cjson, jss: seq<Source>): seq<Write>
    requires forall js <- jss :: Readable(c, js)
  {
    if jss == [] then []
    else
      var js := jss[|jss| - 1];
      assert js in jss && Readable(c, js);
      WritesOf(c, jss[..|jss| - 1])
      + if Strip(js.json).None? then [] else [Write(js.source, c.parse(Strip(js.json).value).value)]
  }

  lemma WritesStep(c: Cjson, jss: seq<Source>, i: nat)
    requires i < |jss| && forall js <- jss :: Readable(c, js)
    ensures Readable(c, jss[i])
    ensures WritesOf(c, jss[..i + 1])
         == if Strip(jss[i].json).None? then WritesOf(c, jss[..i])
            else WritesOf(c, jss[..i]) + [Write(jss[i].source, c.parse(Strip(jss[i].json).value).value)]
  {
    assert jss[..i + 1][..i] == jss[..i];
  }

  // ---- saving ----

  function FieldsOf(s: seq<Entry<Value>>): seq<Field> {
    seq(|s|, i requires 0 <= i < |s| => Field(s[i].key, s[i].item))
  }

  function BranchesOf(s: seq<Entry<SubTree>>): seq<Branch> {
    seq(|s|, i requires 0 <= i < |s| => Branch(s[i].key, FieldsOf(Inorder(s[i].item))))
  }

  /** What is saved comes in the order of its names. */
  lemma SavedInOrder(t: TopTree, s: SubTree)
    requires Sorted(Inorder(t)) && Sorted(Inorder(s))
    ensures var bs := BranchesOf(Inorder(t));
      forall i, j :: 0 <= i < j < |bs| ==> CompareText(bs[i].name, bs[j].name) < 0
    ensures var fs := FieldsOf(Inorder(s));
      forall i, j :: 0 <= i < j < |fs| ==> CompareText(fs[i].name, fs[j].name) < 0
  {
  }

  function SourcesOf(c: Cjson, d: seq<Branch>): seq<Source> {
    seq(|d|, i requires 0 <= i < |d| => Source(d[i].name, c.render(d[i].fields)))
  }

  function WritesIn(d: seq<Branch>): seq<Write> {
    seq(|d|, i requires 0 <= i < |d| => Write(d[i].name, d[i].fields))
  }

  method AppendAttribToJSON(json: seq<Field>, t: SubTree) returns (r: seq<Field>)
    ensures r == json + FieldsOf(Inorder(t))
    decreases t
  {
    if t.Leaf? {
      return json;
    }
    r := AppendAttribToJSON(json, t.left);
    r := r + [Field(t.item.key, t.item.item)];
    r := AppendAttribToJSON(r, t.right);
  }

  method AppendSourceToJSON(json: seq<Branch>, t: TopTree) returns (r: seq<Branch>, count: nat)
    ensures r == json + BranchesOf(Inorder(t)) && count == |Inorder(t)|
    decreases t
  {
    if t.Leaf? {
      return json, 0;
    }
    var left, right;
    r, left := AppendSourceToJSON(json, t.left);
    var jsonItem := AppendAttribToJSON([], t.item.item);
    assert jsonItem == FieldsOf(Inorder(t.item.item));
    r := r + [Branch(t.item.key, jsonItem)];
    r, right := AppendSourceToJSON(r, t.right);
    count := left + 1 + right;
  }

  method ExtractJSONFromTree(c: Cjson, sources: TopTree) returns (js: seq<Source>)
    ensures js == SourcesOf(c, BranchesOf(Inorder(sources)))
  {
    var jsonTree, srcCount := AppendSourceToJSON([], sources);
    js := [];
    var i := 0;
    while i < srcCount && i < |jsonTree|
      invariant 0 <= i <= |jsonTree| == srcCount && js == SourcesOf(c, jsonTree)[..i]
    {
      js := js + [Source(jsonTree[i].name, c.render(jsonTree[i].fields))];
      i := i + 1;
    }
  }

  function Parsed(c: Cjson, js: seq<Source>): seq<Branch>
    requires forall j <- js :: c.parse(j.json).Some?
  {
    seq(|js|, i requires 0 <= i < |js| => assert js[i] in js; Branch(js[i].source, c.parse(js[i].json).value))
  }

  method CombineJSON(c: Cjson, js: seq<Source>) returns (json: string)
    requires forall j <- js :: c.parse(j.json).Some?
    ensures json == c.renderAll(Parsed(c, js))
  {
    var jsonTree := [];
    var i := 0;
    while i < |js|
      invariant 0 <= i <= |js| && jsonTree == Parsed(c, js)[..i]
    {
      assert js[i] in js;
      var jsonItem := c.parse(js[i].json);
      jsonTree := jsonTree + [Branch(js[i].source, jsonItem.value)];
      i := i + 1;
    }
    assert Parsed(c, js)[..i] == Parsed(c, js);
    json := c.renderAll(jsonTree);
  }

  lemma ParsedAgain(c: Cjson, d: seq<Branch>)
    requires GivesBack(c, d)
    ensures (forall j <- SourcesOf(c, d) :: c.parse(j.json).Some?) && Parsed(c, SourcesOf(c, d)) == d
  {
    forall i | 0 <= i < |d|
      ensures c.parse(SourcesOf(c, d)[i].json) == Some(d[i].fields)
    {
      assert d[i] in d;
    }
  }

  method SplitJSON(c: Cjson, json: string) returns (js: seq<Source>)
    requires c.parseAll(json).Some?
    ensures js == SourcesOf(c, c.parseAll(json).value)
  {
    var jsonTree := c.parseAll(json).value;
    js := [];
    var i := 0;
    while i < |jsonTree|
      invariant 0 <= i <= |jsonTree| && js == SourcesOf(c, jsonTree)[..i]
    {
      js := js + [Source(jsonTree[i].name, c.render(jsonTree[i].fields))];
      i := i + 1;
    }
  }

  lemma {:induction false} SourcesAreWrites(c: Cjson, d: seq<Branch>)
    requires forall b <- d ::
               Strip(c.render(b.fields)).Some? && c.parse(Strip(c.render(b.fields)).value) == Some(b.fields)
    ensures (forall js <- SourcesOf(c, d) :: Readable(c, js)) && WritesOf(c, SourcesOf(c, d)) == WritesIn(d)
  {
    if d != [] {
      var front := d[..|d| - 1];
      SourcesAreWrites(c, front);
      assert SourcesOf(c, d)[..|d| - 1] == SourcesOf(c, front);
      assert WritesIn(d) == WritesIn(front) + [Write(d[|d| - 1].name, d[|d| - 1].fields)];
      assert d[|d| - 1] in d;
    }
  }

  /** A row is rebuilt from the fields of its tree. */
  lemma {:induction false} FieldsRebuild(s: seq<Entry<Value>>)
    ensures Filled(map[], FieldsOf(s)) == Pairs(s)
  {
    if s != [] {
      FieldsRebuild(s[..|s| - 1]);
      assert FieldsOf(s)[..|s| - 1] == FieldsOf(s[..|s| - 1]);
    }
  }

  /** The whole index by source is rebuilt from the branches of its tree, sources without
      attributes included. */
  lemma {:induction false} BranchesRebuild(s: seq<Entry<SubTree>>)
    requires Sorted(s)
    ensures SourcesRun(map[], WritesIn(BranchesOf(s))) == TableOf(Pairs(s))
  {
    if s != [] {
      var front, x := s[..|s| - 1], s[|s| - 1];
      BranchesRebuild(front);
      var ws := WritesIn(BranchesOf(s));
      assert ws[..|s| - 1] == WritesIn(BranchesOf(front));
      assert s == front + [x] + [];
      SortedParts(front, x, []);
      FieldsRebuild(Inorder(x.item));
      TableUpdate(Pairs(front), Folded(x.key), x.item);
    }
  }

  /** What the setters are called with. */
  datatype Setting = SetString(text: Option<string>) | SetInt(n: int) | SetBool(b: bool)

  function Digits(n: nat): string {
    if n < 10 then ['0' + n as char] else Digits(n / 10) + ['0' + (n % 10) as char]
  }

  /** The text that the setters print for one attribute. */
  function SetterText(attrib: string, setting: Setting): (text: string)
    ensures Strip(text).Some?
  {
    var value := match setting
      case SetString(None) => "null"
      case SetString(Some(t)) => "\"" + t + "\""
      case SetInt(n) => if n < 0 then "-" + Digits(-n) else Digits(n)
      case SetBool(b) => if b then "true" else "false";
    var text := "{ \"" + attrib + "\": " + value + " }";
    assert text[0] == '{';
    text
  }

  /** The number that decimal digits denote. */
  function Decimal(s: string): int {
    if s == "" then 0 else 10 * Decimal(s[..|s| - 1]) + (s[|s| - 1] as int - 48)
  }

  lemma {:induction false} DigitsAreDecimal(n: nat)
    ensures var s := Digits(n);
      && s != "" && Decimal(s) == n && (forall i :: 0 <= i < |s| ==> 48 <= s[i] as int <= 57)
      && (|s| > 1 ==> s[0] as int != 48)
  {
    var s := Digits(n);
    if n < 10 {
      assert s[..0] == "";
    } else {
      DigitsAreDecimal(n / 10);
      assert s[..|s| - 1] == Digits(n / 10);
    }
  }

  /** The texts of the setters: a string in quotes, null without one, a number in decimal, a truth
      value in words. */
  lemma SettersPrint(attrib: string, text: string, n: int)
    ensures var front := "{ \"" + attrib + "\": ";
      && SetterText(attrib, SetString(Some(text))) == front + ("\"" + text + "\"") + " }"
      && SetterText(attrib, SetString(None)) == front + "null" + " }"
      && SetterText(attrib, SetBool(true)) == front + "true" + " }"
      && SetterText(attrib, SetBool(false)) == front + "false" + " }"
      && exists digits :: Decimal(digits) == (if n < 0 then -n else n)
           && SetterText(attrib, SetInt(n)) == front + (if n < 0 then "-" + digits else digits) + " }"
  {
    var digits := Digits(if n < 0 then -n else n);
    DigitsAreDecimal(if n < 0 then -n else n);
    assert Decimal(digits) == if n < 0 then -n else n;
  }

  class Character {
    var attribs: TopTree
    var sources: TopTree

    ghost predicate Valid()
      reads this
    {
      Deep(attribs) && Deep(sources) && Balanced(attribs) && Balanced(sources)
    }

    constructor ()
      ensures Valid() && Contents(attribs) == map[] && Contents(sources) == map[]
    {
      attribs, sources := Leaf, Leaf;
    }

    /** One attribute of one source goes into the attribs tree. */
    method AddAttrib(name: string, source: string, value: Value)
      requires Deep(attribs)
      modifies `attribs
      ensures Deep(attribs)
      ensures Contents(attribs) == Written(old(Contents(attribs)), Folded(name), Folded(source), value)
    {
      var subTree;
      attribs, subTree := Open(attribs, name, false);
      subTree := Store(subTree, source, value, true);
      attribs := Change(attribs, name, subTree);
      ghost var before := old(Contents(attribs));
      UpdateTwice(before, Folded(name), RowOf(before, Folded(name)), View(subTree));
    }

    /** All fields of a source go into the attribs tree and into the source's tree. */
    method AddFields(source: string, fields: seq<Field>, srcTree: SubTree) returns (srcSubTree: SubTree)
      requires Deep(attribs) && Sorted(Inorder(srcTree))
      modifies `attribs
      ensures Deep(attribs) && Sorted(Inorder(srcSubTree))
      ensures Contents(attribs) == AttribsAfter(old(Contents(attribs)), source, fields)
      ensures View(srcSubTree) == Filled(View(srcTree), fields)
    {
      srcSubTree := srcTree;
      var i := 0;
      while i < |fields|
        invariant 0 <= i <= |fields| && Deep(attribs) && Sorted(Inorder(srcSubTree))
        invariant Contents(attribs) == AttribsAfter(old(Contents(attribs)), source, fields[..i])
        invariant View(srcSubTree) == Filled(View(srcTree), fields[..i])
      {
        var f := fields[i];
        OneFieldMore(old(Contents(attribs)), View(srcTree), source, fields, i);
        AddAttrib(f.name, source, f.value);
        srcSubTree := Store(srcSubTree, f.name, f.value, false);
        i := i + 1;
      }
      assert fields[..i] == fields;
    }

    method RebalanceAttribs()
      requires Deep(attribs)
      modifies `attribs
      ensures Deep(attribs) && Balanced(attribs) && Contents(attribs) == old(Contents(attribs))
    {
      attribs := Rebalance(attribs);
      assert View(attribs) == old(View(attribs));
    }

    /** AddJSONToTrees. The text is JSON, or white space only. */
    method AddJSONToTrees(c: Cjson, js: Source)
      requires Valid()
      requires Strip(js.json).Some? ==> c.parse(Strip(js.json).value).Some?
      modifies this
      ensures Valid()
      ensures match Strip(js.json)
        case None => unchanged(this)
        case Some(text) =>
          var w := Write(js.source, c.parse(text).value);
          && Contents(attribs) == AttribsAfter(old(Contents(attribs)), w.source, w.fields)
          && Contents(sources) == SourcesAfter(old(Contents(sources)), w)
    {
      var json := Strip(js.json);
      if json.None? {
        return;
      }
      var fields := c.parse(json.value).value;
      var srcSubTree;
      sources, srcSubTree := Open(sources, js.source, true);
      srcSubTree := AddFields(js.source, fields, srcSubTree);
      RebalanceAttribs();
      srcSubTree := Rebalance(srcSubTree);
      sources := Change(sources, js.source, srcSubTree);
      ghost var before := old(Contents(sources));
      UpdateTwice(before, Folded(js.source), RowOf(before, Folded(js.source)), View(srcSubTree));
    }

    /** SetAttributeString, SetAttributeInt and SetAttributeBool, through AddAttribute. What is
        written is what their text parses to: one cell in both indexes when that is one field. */
    method SetAttribute(c: Cjson, attrib: string, source: string, setting: Setting)
      requires Valid() && c.parse(Strip(SetterText(attrib, setting)).value).Some?
      modifies this
      ensures Valid()
      ensures var fields := c.parse(Strip(SetterText(attrib, setting)).value).value;
        && Contents(attribs) == AttribsAfter(old(Contents(attribs)), source, fields)
        && Contents(sources) == SourcesAfter(old(Contents(sources)), Write(source, fields))
        && (|fields| == 1 ==>
              var name, value := Folded(fields[0].name), fields[0].value;
              && Contents(attribs) == Written(old(Contents(attribs)), name, Folded(source), value)
              && Contents(sources) == Written(old(Contents(sources)), Folded(source), name, value))
    {
      AddJSONToTrees(c, Source(source, SetterText(attrib, setting)));
      ghost var fields := c.parse(Strip(SetterText(attrib, setting)).value).value;
      if |fields| == 1 {
        assert fields == [fields[0]];
        OneField(old(Contents(attribs)), source, fields[0]);
        OneField(old(Contents(sources)), source, fields[0]);
      }
    }

    /** A character's attributes are added one source after the other. */
    method AddAll(c: Cjson, jss: seq<Source>)
      requires Valid() && forall js <- jss :: Readable(c, js)
      modifies this
      ensures Valid()
      ensures Contents(attribs) == AttribsRun(old(Contents(attribs)), WritesOf(c, jss))
      ensures Contents(sources) == SourcesRun(old(Contents(sources)), WritesOf(c, jss))
    {
      var i := 0;
      while i < |jss|
        invariant 0 <= i <= |jss| && Valid()
        invariant Contents(attribs) == AttribsRun(old(Contents(attribs)), WritesOf(c, jss[..i]))
        invariant Contents(sources) == SourcesRun(old(Contents(sources)), WritesOf(c, jss[..i]))
      {
        assert Readable(c, jss[i]);
        ghost var done := WritesOf(c, jss[..i]);
        WritesStep(c, jss, i);
        AddJSONToTrees(c, jss[i]);
        if Strip(jss[i].json).Some? {
          var w := Write(jss[i].source, c.parse(Strip(jss[i].json).value).value);
          RunAppend(old(Contents(attribs)), done, w);
          RunAppend(old(Contents(sources)), done, w);
        }
        i := i + 1;
      }
      assert jss[..i] == jss;
    }
  }

  /** Saving a character as pb_save_pc does and loading the text into an empty one as pb_load_pc
      does gives the same two indexes. */
  method SaveAndLoad(c: Cjson, pc: Character) returns (loaded: Character)
    requires pc.Valid() && GivesBack(c, BranchesOf(Inorder(pc.sources)))
    requires Transposed(Contents(pc.attribs), Contents(pc.sources)) && NoEmptyRow(Contents(pc.attribs))
    ensures loaded.Valid()
    ensures Contents(loaded.sources) == Contents(pc.sources)
    ensures Contents(loaded.attribs) == Contents(pc.attribs)
  {
    ghost var d := BranchesOf(Inorder(pc.sources));
    var saved := ExtractJSONFromTree(c, pc.sources);
    ParsedAgain(c, d);
    var json := CombineJSON(c, saved);
    var js := SplitJSON(c, json);
    SourcesAreWrites(c, d);
    loaded := new Character();
    loaded.AddAll(c, js);
    BranchesRebuild(Inorder(pc.sources));
    RunKeepsTransposed(map[], map[], WritesIn(d));
    TransposeIsUnique(Contents(loaded.attribs), Contents(pc.attribs), Contents(pc.sources));
  }
}
