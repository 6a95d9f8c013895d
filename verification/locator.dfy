// Finding the profile table in a parsed page, and the whole extraction:
// crawl the tree, then read the table the crawl settled on.

module Locator {
  import opened Wrappers
  import opened Errors
  import opened Html
  import opened Fields
  import opened Rows

  const DataClass := "rikishidata"
  const RikishiClass := "rikishi"

  /** A table the crawler stops at: it has no class attribute. */
  predicate ClassLess(n: Node)
  {
    IsTable(n) && AttrLookup(n.attr, "class").None?
  }

  /** A visited node with whether it had no siblings (the root has none). */
  type Visit = (Node, bool)

  /** A table whose class is exactly cls and, when needAlone, that has no
      sibling. */
  predicate Qualifies(v: Visit, cls: string, needAlone: bool)
  {
    IsTable(v.0) && AttrLookup(v.0.attr, "class") == Some(cls) && (v.1 || !needAlone)
  }

  /** The nodes whose visit gets past the class check, in the order the
      crawler visits them: the node itself, then each child's subtree in
      document order. A class-less table ends the visit of its subtree. */
  function Visited(n: Node, alone: bool): (vs: seq<Visit>)
    ensures vs == [] <==> ClassLess(n)
    ensures vs != [] ==> vs[0] == (n, alone)
    decreases n, 1
  {
    if ClassLess(n) then [] else [(n, alone)] + VisitedKids(n, 0)
  }

  /** The visits of the children of n from the i-th on. */
  function VisitedKids(n: Node, i: nat): seq<Visit>
    requires i <= |n.children|
    decreases n, 0, |n.children| - i
  {
    if i == |n.children| then []
    else Visited(n.children[i], |n.children| == 1) + VisitedKids(n, i + 1)
  }

  /** The last qualifying table of a visiting order, if there is one. */
  function LastTable(vs: seq<Visit>, cls: string, needAlone: bool): (r: Option<Node>)
    ensures r.None? <==> forall k | 0 <= k < |vs| :: !Qualifies(vs[k], cls, needAlone)
    ensures r.Some? ==> exists k | 0 <= k < |vs| :: vs[k].0 == r.value && Qualifies(vs[k], cls, needAlone)
                          && forall j | k < j < |vs| :: !Qualifies(vs[j], cls, needAlone)
  {
    if vs == [] then None
    else if Qualifies(vs[|vs| - 1], cls, needAlone) then Some(vs[|vs| - 1].0)
    else
      var r := LastTable(vs[..|vs| - 1], cls, needAlone);
      assert forall k | 0 <= k < |vs| - 1 :: vs[..|vs| - 1][k] == vs[k];
      r
  }

  /** The two tables remembered so far. */
  datatype Found = Found(dataTable: Option<Node>, rikishiTable: Option<Node>)

  /** What a visit records: a lone "rikishidata" table becomes the data
      table, any "rikishi" table the rikishi table. */
  function Mark(f: Found, v: Visit): Found
  {
    Found(if Qualifies(v, DataClass, true) then Some(v.0) else f.dataTable,
          if Qualifies(v, RikishiClass, false) then Some(v.0) else f.rikishiTable)
  }

  /** The records of a sequence of visits, in order. */
  function Fold(f: Found, vs: seq<Visit>): Found
    decreases |vs|
  {
    if vs == [] then f else Fold(Mark(f, vs[0]), vs[1..])
  }

  /** A later find replaces an earlier one. */
  function Later(earlier: Option<Node>, later: Option<Node>): Option<Node>
  {
    if later.Some? then later else earlier
  }

  /** The data table the crawl of a whole document settles on. */
  function Located(doc: Node): Option<Node>
  {
    LastTable(Visited(doc, true), DataClass, true)
  }

  class Crawler {
    var rikishiDataTable: Option<Node>
    var rikishiTable: Option<Node>

    constructor ()
      ensures rikishiDataTable == None && rikishiTable == None
    {
      rikishiDataTable := None;
      rikishiTable := None;
    }

    function State(): Found
      reads this
    {
      Found(rikishiDataTable, rikishiTable)
    }

    /** Visits node and, unless it is a class-less table, its subtree; the
        error of a class-less table reaches only the caller of that visit. */
    method Crawl(node: Node, alone: bool) returns (err: Option<Error>)
      modifies this
      ensures State() == Fold(old(State()), Visited(node, alone))
      ensures err == if ClassLess(node) then Some(AttributeMissing("class")) else None
      decreases node
    {
      if IsTable(node) {
        var a := GetAttributeByName(node, "class");
        if a.Failure? {
          return Some(a.error);
        }
        if a.value == DataClass {
          if alone {
            rikishiDataTable := Some(node);
          }
        } else if a.value == RikishiClass {
          rikishiTable := Some(node);
        }
      }
      ghost var vs := Visited(node, alone);
      assert vs[0] == (node, alone) && vs[1..] == VisitedKids(node, 0);
      var i := 0;
      while i < |node.children|
        invariant 0 <= i <= |node.children|
        invariant Fold(State(), VisitedKids(node, i)) == Fold(old(State()), vs)
      {
        ghost var before := State();
        var ignored := Crawl(node.children[i], |node.children| == 1);
        FoldAppend(before, Visited(node.children[i], |node.children| == 1), VisitedKids(node, i + 1));
        i := i + 1;
      }
      return None;
    }
  }

  /** Finds the data table and reads the profile from it. A failure from the
      crawl or from the table gives no record at all. */
  method ParseHTMLResponse(doc: Node, slug: string -> string) returns (r: Result<Profile, Error>)
    requires !ClassLess(doc) && Located(doc).Some? ==> TableReadable(Located(doc).value, EmptyProfile, slug)
    ensures ClassLess(doc) ==> r == Failure(AttributeMissing("class"))
    ensures !ClassLess(doc) && Located(doc).None? ==> r == Failure(TableNotFound)
    ensures !ClassLess(doc) && Located(doc).Some? ==>
              var o := Walk(TableRows(Located(doc).value), EmptyProfile, slug);
              o.Done? && (r.Success? <==> o.err.None?)
              && (r.Success? ==> r.value == o.profile)
              && (r.Failure? ==> r.error == o.err.value)
  {
    var crawler := new Crawler();
    var err := crawler.Crawl(doc, true);
    if err.Some? {
      return Failure(err.value);
    }
    FoldLast(Found(None, None), Visited(doc, true));
    var rikishi := new Rikishi();
    err := ParseRikishiDataTable(crawler.rikishiDataTable, rikishi, slug);
    if err.Some? {
      return Failure(err.value);
    }
    return Success(rikishi.Value());
  }

  // ----- what the crawl records -----

  /** Recording two runs of visits is recording the second after the first. */
  lemma {:induction false} FoldAppend(f: Found, a: seq<Visit>, b: seq<Visit>)
    ensures Fold(f, a + b) == Fold(Fold(f, a), b)
    decreases |a|
  {
    if a == [] {
      assert a + b == b;
    } else {
      assert (a + b)[0] == a[0] && (a + b)[1..] == a[1..] + b;
      FoldAppend(Mark(f, a[0]), a[1..], b);
    }
  }

  /** The last qualifying table of a run of visits is the last one of its
      second part, if there is one there, and of its first part otherwise. */
  lemma {:induction false} LastTableAppend(a: seq<Visit>, b: seq<Visit>, cls: string, needAlone: bool)
    ensures LastTable(a + b, cls, needAlone) == Later(LastTable(a, cls, needAlone), LastTable(b, cls, needAlone))
    decreases |b|
  {
    if b == [] {
      assert a + b == a;
    } else {
      var n := |b| - 1;
      assert (a + b)[|a + b| - 1] == b[n];
      assert (a + b)[..|a + b| - 1] == a + b[..n];
      LastTableAppend(a, b[..n], cls, needAlone);
    }
  }

  /** Each table slot ends up holding the last qualifying table visited, or
      what it held before when no visited table qualifies. */
  lemma {:induction false} FoldLast(f: Found, vs: seq<Visit>)
    ensures Fold(f, vs) == Found(Later(f.dataTable, LastTable(vs, DataClass, true)),
                                 Later(f.rikishiTable, LastTable(vs, RikishiClass, false)))
    decreases |vs|
  {
    if vs != [] {
      FoldLast(Mark(f, vs[0]), vs[1..]);
      assert vs == [vs[0]] + vs[1..];
      LastTableAppend([vs[0]], vs[1..], DataClass, true);
      LastTableAppend([vs[0]], vs[1..], RikishiClass, false);
      assert [vs[0]][..0] == [];
    }
  }

  /** Visits that are not lone "rikishidata" tables, the "rikishi" tables
      among them, have no bearing on the data table: adding a run of them
      anywhere in the visiting order leaves the choice as it was. */
  lemma DataTableIgnoresOtherVisits(a: seq<Visit>, extra: seq<Visit>, b: seq<Visit>)
    requires forall k | 0 <= k < |extra| :: !Qualifies(extra[k], DataClass, true)
    ensures LastTable(a + extra + b, DataClass, true) == LastTable(a + b, DataClass, true)
  {
    LastTableAppend(a + extra, b, DataClass, true);
    LastTableAppend(a, extra, DataClass, true);
    LastTableAppend(a, b, DataClass, true);
  }

  // ----- what the crawl visits -----

  /** Every visit below a child is a visit of the child's siblings' run. */
  lemma {:induction false} VisitedKidsCover(n: Node, i: nat, k: nat)
    requires i <= k < |n.children|
    ensures forall v | v in Visited(n.children[k], |n.children| == 1) :: v in VisitedKids(n, i)
    decreases k - i
  {
    if i < k {
      VisitedKidsCover(n, i + 1, k);
    }
  }

  /** Below a node the crawler gets past, every child's visits are part of
      the node's own; repeated, this reaches every node that no class-less
      table lies above. */
  lemma ChildrenVisited(n: Node, alone: bool, k: nat)
    requires !ClassLess(n) && k < |n.children|
    ensures forall v | v in Visited(n.children[k], |n.children| == 1) :: v in Visited(n, alone)
  {
    VisitedKidsCover(n, 0, k);
  }

  /** Every visit is of a node no class-less table lies above, the node
      itself included. */
  lemma {:induction false} VisitedNeverClassLess(n: Node, alone: bool)
    ensures forall k | 0 <= k < |Visited(n, alone)| :: !ClassLess(Visited(n, alone)[k].0)
    decreases n, 1
  {
    if !ClassLess(n) {
      VisitedKidsNeverClassLess(n, 0);
    }
  }

  lemma {:induction false} VisitedKidsNeverClassLess(n: Node, i: nat)
    requires i <= |n.children|
    ensures forall k | 0 <= k < |VisitedKids(n, i)| :: !ClassLess(VisitedKids(n, i)[k].0)
    decreases n, 0, |n.children| - i
  {
    if i < |n.children| {
      VisitedNeverClassLess(n.children[i], |n.children| == 1);
      VisitedKidsNeverClassLess(n, i + 1);
      var a, b := Visited(n.children[i], |n.children| == 1), VisitedKids(n, i + 1);
      assert forall k | 0 <= k < |a + b| :: (a + b)[k] == if k < |a| then a[k] else b[k - |a|];
    }
  }

  // ----- a page with a decoy -----

  function Table(cls: string, children: seq<Node>): Node
  {
    Node(ElementNode, "table", [Attribute("", "class", cls)], children)
  }

  function Elem(tag: string, children: seq<Node>): Node
  {
    Node(ElementNode, tag, [], children)
  }

  /** An outer "rikishidata" table that has a sibling wraps the lone inner
      one; only the inner one is taken. */
  lemma NestedDataTableExample(inner: Node, outer: Node, doc: Node)
    requires inner == Table(DataClass, [])
    requires outer == Table(DataClass, [Elem("td", [inner])])
    requires doc == Node(DocumentNode, "", [], [Elem("body", [outer, Elem("div", [])])])
    ensures Located(doc) == Some(inner)
  {
    var td := Elem("td", [inner]);
    var div := Elem("div", []);
    var body := Elem("body", [outer, div]);
    assert VisitedKids(inner, 0) == [];
    assert Visited(inner, true) == [(inner, true)];
    assert VisitedKids(td, 1) == [];
    assert VisitedKids(td, 0) == [(inner, true)];
    assert Visited(td, true) == [(td, true), (inner, true)];
    assert VisitedKids(outer, 1) == [];
    assert VisitedKids(outer, 0) == [(td, true), (inner, true)];
    assert Visited(outer, false) == [(outer, false), (td, true), (inner, true)];
    assert VisitedKids(div, 0) == [];
    assert Visited(div, false) == [(div, false)];
    assert VisitedKids(body, 2) == [];
    assert VisitedKids(body, 1) == [(div, false)];
    assert VisitedKids(body, 0) == [(outer, false), (td, true), (inner, true), (div, false)];
    assert Visited(body, true) == [(body, true), (outer, false), (td, true), (inner, true), (div, false)];
    assert VisitedKids(doc, 1) == [];
    assert Visited(doc, true) == [(doc, true), (body, true), (outer, false), (td, true), (inner, true), (div, false)];
    var vs := Visited(doc, true);
    assert !Qualifies(vs[5], DataClass, true) && Qualifies(vs[4], DataClass, true);
    assert vs[..5][4] == (inner, true);
  }

  /** A lone "rikishidata" table inside a table without a class attribute is
      never reached. */
  lemma ClassLessHidesTableExample(inner: Node, doc: Node)
    requires inner == Table(DataClass, [])
    requires doc == Node(DocumentNode, "", [], [Elem("table", [inner])])
    ensures Located(doc).None?
  {
    assert ClassLess(Elem("table", [inner]));
    assert VisitedKids(doc, 1) == [];
    assert VisitedKids(doc, 0) == [];
    assert Visited(doc, true) == [(doc, true)];
  }
}
