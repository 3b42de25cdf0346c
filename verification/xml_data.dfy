/** The document store: holds at most one parsed document and answers dotted
    path queries over it. On a list, a field name is looked up in every
    element and the answers are flattened one level, with the falsy ones
    dropped; on an object it is a plain key lookup. */
module XmlDataService {
  import opened JsValues
  import opened JsStrings
  import opened Entities

  // ------------------------------------------------------------ searchData

  /** What `.flat()` makes of one element: a list is spread, anything else
      stays as it is. */
  function Spread(v: Value): (r: seq<Value>)
    ensures v.Arr? ==> r == v.items
    ensures !v.Arr? ==> r == [v]
  {
    if v.Arr? then v.items else [v]
  }

  /** `vs.flat()`: flattens one level, keeping the order. */
  function Flat(vs: seq<Value>): (r: seq<Value>)
    ensures forall v :: v in r <==> exists i :: 0 <= i < |vs| && v in Spread(vs[i])
  {
    if vs == [] then []
    else
      Spread(vs[0]) + Flat(vs[1..])
  }

  /** `vs.filter((value) => !!value)`: keeps the truthy elements, in order. */
  function Compact(vs: seq<Value>): (r: seq<Value>)
    ensures forall v :: v in r <==> v in vs && Truthy(v)
    ensures |r| <= |vs|
  {
    if vs == [] then []
    else
      assert forall v :: v in vs <==> v == vs[0] || v in vs[1..];
      (if Truthy(vs[0]) then [vs[0]] else []) + Compact(vs[1..])
  }

  lemma {:induction false} FlatAppend(a: seq<Value>, b: seq<Value>)
    ensures Flat(a + b) == Flat(a) + Flat(b)
  {
    if a == [] {
      assert a + b == b;
    } else {
      assert (a + b)[1..] == a[1..] + b;
      FlatAppend(a[1..], b);
    }
  }

  lemma {:induction false} CompactAppend(a: seq<Value>, b: seq<Value>)
    ensures Compact(a + b) == Compact(a) + Compact(b)
  {
    if a == [] {
      assert a + b == b;
    } else {
      assert (a + b)[1..] == a[1..] + b;
      CompactAppend(a[1..], b);
    }
  }

  /** `searchData(attr, data)`: `data[attr]` on an object; on a list, the
      lookup mapped over every element, flattened one level, with the falsy
      answers dropped. */
  function SearchData(attr: string, data: Value): (r: Value)
    ensures data.Obj? ==> r == Get(data.fields, attr)
    ensures data.Arr? ==> r.Arr? && forall v :: v in r.items ==> Truthy(v)
    ensures !data.Arr? && !data.Obj? ==> r == Undef
  {
    match data
    case Arr(items) =>
      Arr(Compact(Flat(seq(|items|, i requires 0 <= i < |items| => SearchData(attr, items[i])))))
    case Obj(fields) => Get(fields, attr)
    case _ => Undef
  }

  /** Searching a list is searching its first element and then the rest:
      the answers come in the order of the elements they were found in. */
  lemma SearchListCons(attr: string, x: Value, xs: seq<Value>)
    ensures SearchData(attr, Arr([x] + xs)).items
            == Compact(Spread(SearchData(attr, x))) + SearchData(attr, Arr(xs)).items
  {
    var items := [x] + xs;
    var mapped := seq(|items|, i requires 0 <= i < |items| => SearchData(attr, items[i]));
    var rest := seq(|xs|, i requires 0 <= i < |xs| => SearchData(attr, xs[i]));
    assert mapped[0] == SearchData(attr, x) && mapped[1..] == rest;
    FlatCons(mapped);
    CompactAppend(Spread(SearchData(attr, x)), Flat(rest));
  }

  /** Flattening a non-empty list spreads its first element before the rest. */
  lemma FlatCons(vs: seq<Value>)
    requires vs != []
    ensures Flat(vs) == Spread(vs[0]) + Flat(vs[1..])
  {
  }

  /** What searching a list finds: exactly the truthy values that searching
      some element yields (spread when that answer is itself a list). */
  lemma SearchListMembers(attr: string, items: seq<Value>, v: Value)
    ensures v in SearchData(attr, Arr(items)).items
            <==> Truthy(v) && exists i :: 0 <= i < |items| && v in Spread(SearchData(attr, items[i]))
  {
    var mapped := seq(|items|, i requires 0 <= i < |items| => SearchData(attr, items[i]));
    assert forall i :: 0 <= i < |items| ==> mapped[i] == SearchData(attr, items[i]);
  }

  /** Neither `v` nor anything reachable from it through lists has a field
      named `attr`. */
  predicate AbsentEverywhere(attr: string, v: Value) {
    match v
    case Obj(fields) => forall i :: 0 <= i < |fields| ==> fields[i].0 != attr
    case Arr(items) => forall w :: w in items ==> AbsentEverywhere(attr, w)
    case _ => true
  }

  /** Looking up a field that occurs nowhere finds nothing: undefined on a
      single value, the empty list on a list. */
  lemma {:induction false} SearchAbsent(attr: string, v: Value)
    requires AbsentEverywhere(attr, v)
    ensures SearchData(attr, v) == if v.Arr? then Arr([]) else Undef
    decreases v
  {
    if v.Arr? {
      forall i | 0 <= i < |v.items|
        ensures SearchData(attr, v.items[i]) == if v.items[i].Arr? then Arr([]) else Undef
      {
        assert v.items[i] in v.items;
        SearchAbsent(attr, v.items[i]);
      }
      var found := SearchData(attr, v).items;
      if found != [] {
        SearchListMembers(attr, v.items, found[0]);
        assert false;
      }
    }
  }

  // --------------------------------------------------------------- doQuery

  /** The loop of `doQuery`: fold `searchData` over the field names, from
      the given value, stopping as soon as the current result is falsy. */
  function Walk(result: Value, attrs: seq<string>): (r: Value)
    ensures !Truthy(result) ==> r == result
    decreases |attrs|
  {
    if !Truthy(result) || attrs == [] then result
    else Walk(SearchData(attrs[0], result), attrs[1..])
  }

  /** Walking a path in two parts is walking the first part and then the
      second from where the first ended. */
  lemma {:induction false} WalkAppend(v: Value, a: seq<string>, b: seq<string>)
    ensures Walk(v, a + b) == Walk(Walk(v, a), b)
    decreases |a|
  {
    if a == [] {
      assert a + b == b;
    } else if Truthy(v) {
      assert (a + b)[1..] == a[1..] + b;
      WalkAppend(SearchData(a[0], v), a[1..], b);
    }
  }

  /** One more field name looks it up in what the path so far found, unless
      that was already falsy. */
  lemma WalkSnoc(v: Value, attrs: seq<string>, attr: string)
    ensures Walk(v, attrs + [attr])
            == var u := Walk(v, attrs); if Truthy(u) then SearchData(attr, u) else u
  {
    WalkAppend(v, attrs, [attr]);
    var u := Walk(v, attrs);
    if Truthy(u) {
      assert Walk(SearchData(attr, u), []) == SearchData(attr, u);
    }
  }

  /** A final result `doQuery` reports: truthy and not an empty list. */
  predicate Found(v: Value) {
    Truthy(v) && v != Arr([])
  }

  /** What `doQuery(path)` answers over the document `doc`. */
  function Query(doc: Value, path: string): (r: Response<Value>)
    ensures r.Success? <==> Found(Walk(doc, Split(path, ".")))
    ensures r.Success? ==> r.payload == Walk(doc, Split(path, "."))
    ensures r.Success? ==> Truthy(r.payload) && r.payload != Arr([])
    ensures r.Failure? ==> r.code == QueryNotFoundData && Contains(r.message, path)
    ensures !Truthy(doc) ==> r.Failure?
  {
    var found := Walk(doc, Split(path, "."));
    if (found.Arr? && |found.items| == 0) || !Truthy(found) then
      ContainsMiddle("Any information could be found in the path ", path, "");
      assert "Any information could be found in the path " + path + "" == "Any information could be found in the path " + path;
      Failure(QueryNotFoundData, "Any information could be found in the path " + path, CallStack)
    else
      Success("Information found", found)
  }

  /** A path whose last field name occurs nowhere in what the rest of the
      path found is reported as not found, with the path in the message. */
  lemma QueryMissingLastField(doc: Value, path: string, prefix: seq<string>, last: string)
    requires Split(path, ".") == prefix + [last]
    requires AbsentEverywhere(last, Walk(doc, prefix))
    ensures Query(doc, path).Failure?
    ensures Query(doc, path).code == QueryNotFoundData
    ensures Contains(Query(doc, path).message, path)
  {
    WalkSnoc(doc, prefix, last);
    SearchAbsent(last, Walk(doc, prefix));
  }

  /** The document of the query example: a `node` whose `children` list
      holds two objects, each with `node0` .. `node4`, and each of those with
      a `children` list of one `{data, name}` record whose `name` is `n`. */
  function ExampleLeaf(n: string): Value {
    Obj([("data", Str("data")), ("name", Str(n))])
  }

  function ExampleEntry(n: string): Value {
    Obj([("children", Arr([ExampleLeaf(n)]))])
  }

  function ExampleElement(n: string): Value {
    Obj([("node0", ExampleEntry(n)), ("node1", ExampleEntry(n)), ("node2", ExampleEntry(n)),
         ("node3", ExampleEntry(n)), ("node4", ExampleEntry(n))])
  }

  function ExampleNode(n: string): Value {
    Obj([("children", Arr([ExampleElement(n), ExampleElement(n)]))])
  }

  function ExampleDocument(n: string): Value {
    Obj([("node", ExampleNode(n))])
  }

  /** The five field names of the example path, joined with the separator. */
  lemma ExamplePathJoins(dot: string)
    requires dot == "."
    ensures Join(["node", "children", "node3", "children", "name"], dot)
            == "node" + dot + "children" + dot + "node3" + dot + "children" + dot + "name"
  {
    var attrs := ["node", "children", "node3", "children", "name"];
    assert attrs[4..] == ["name"];
    assert attrs[3..][1..] == attrs[4..];
    assert attrs[2..][1..] == attrs[3..];
    assert attrs[1..][1..] == attrs[2..];
    assert attrs[1..] == ["children", "node3", "children", "name"];
    var j4 := Join(attrs[4..], dot);
    var j3 := Join(attrs[3..], dot);
    assert j3 == "children" + dot + j4;
    var j2 := Join(attrs[2..], dot);
    assert j2 == "node3" + dot + j3;
    var j1 := Join(attrs[1..], dot);
    assert j1 == "children" + dot + j2;
  }

  /** The example path is its five field names with a dot between each two.
      The path and the dot come in as parameters fixed by the `requires`
      rather than as literals, so the solver meets the long string only in
      this one small lemma. */
  lemma ExamplePathSpelled(path: string, dot: string)
    requires path == "node.children.node3.children.name" && dot == "."
    ensures path == "node" + dot + "children" + dot + "node3" + dot + "children" + dot + "name"
  {
  }

  /** None of the five field names contains a dot, so joining them with dots
      and splitting on dots gives them back. */
  lemma ExampleNamesRoundTrip(dot: string)
    requires dot == "."
    ensures Split(Join(["node", "children", "node3", "children", "name"], dot), dot)
            == ["node", "children", "node3", "children", "name"]
  {
    var attrs := ["node", "children", "node3", "children", "name"];
    forall k | 0 <= k < |attrs| ensures !Contains(attrs[k], dot) {
      NotContainsChar(attrs[k], dot);
    }
    JoinSplitRoundTrip(attrs, dot);
  }

  /** The example path splits into its five field names. */
  lemma ExamplePathSplits(path: string, dot: string)
    requires path == "node.children.node3.children.name" && dot == "."
    ensures Split(path, dot) == ["node", "children", "node3", "children", "name"]
  {
    ExamplePathSpelled(path, dot);
    ExampleNamesRoundTrip(dot);
    ExamplePathJoins(dot);
  }

  /** Searching a two-element list of the same value twice over. */
  lemma SearchTwice(attr: string, x: Value)
    ensures SearchData(attr, Arr([x, x])).items
            == Compact(Spread(SearchData(attr, x))) + Compact(Spread(SearchData(attr, x)))
  {
    var h := Compact(Spread(SearchData(attr, x)));
    SearchEmptyList(attr);
    SearchListCons(attr, x, []);
    assert [x] + [] == [x];
    assert SearchData(attr, Arr([x])).items == h;
    SearchListCons(attr, x, [x]);
    assert [x] + [x] == [x, x];
  }

  /** Searching the empty list finds nothing. */
  lemma SearchEmptyList(attr: string)
    ensures SearchData(attr, Arr([])).items == []
  {
  }

  lemma ExampleLookups(n: string)
    ensures SearchData("node3", ExampleElement(n)) == ExampleEntry(n)
    ensures SearchData("children", ExampleEntry(n)) == Arr([ExampleLeaf(n)])
    ensures SearchData("name", ExampleLeaf(n)) == Str(n)
  {
    var f := ExampleElement(n).fields;
    // The first three field names differ from `node3` in their last
    // character; saying so lets the lookup skip them one at a time.
    assert "node0"[4] != "node3"[4] && "node1"[4] != "node3"[4] && "node2"[4] != "node3"[4];
    assert f[1..][1..][1..] == f[3..];
    assert Get(f, "node3") == Get(f[1..], "node3") == Get(f[1..][1..], "node3") == Get(f[3..], "node3");
    var g := ExampleLeaf(n).fields;
    assert "data"[0] != "name"[1];
    assert Get(g, "name") == Get(g[1..], "name");
  }

  lemma ExampleTopLookups(n: string)
    ensures SearchData("node", ExampleDocument(n)) == ExampleNode(n)
    ensures SearchData("children", ExampleNode(n)) == Arr([ExampleElement(n), ExampleElement(n)])
  {
  }

  lemma ExampleNode3Step(n: string)
    ensures SearchData("node3", Arr([ExampleElement(n), ExampleElement(n)])) == Arr([ExampleEntry(n), ExampleEntry(n)])
  {
    ExampleLookups(n);
    SearchTwice("node3", ExampleElement(n));
  }

  lemma ExampleChildrenStep(n: string)
    ensures SearchData("children", Arr([ExampleEntry(n), ExampleEntry(n)])) == Arr([ExampleLeaf(n), ExampleLeaf(n)])
  {
    ExampleLookups(n);
    SearchTwice("children", ExampleEntry(n));
  }

  lemma ExampleNameStep(n: string)
    requires n != ""
    ensures SearchData("name", Arr([ExampleLeaf(n), ExampleLeaf(n)])) == Arr([Str(n), Str(n)])
  {
    ExampleLookups(n);
    SearchTwice("name", ExampleLeaf(n));
  }

  /** One step of a walk from a truthy value, on a non-empty path. */
  lemma WalkFirst(v: Value, attrs: seq<string>, next: Value)
    requires Truthy(v) && attrs != [] && SearchData(attrs[0], v) == next
    ensures Walk(v, attrs) == Walk(next, attrs[1..])
  {
  }

  /** One step of a walk from a truthy value. */
  lemma WalkStep(v: Value, attr: string, rest: seq<string>, next: Value)
    requires Truthy(v) && SearchData(attr, v) == next
    ensures Walk(v, [attr] + rest) == Walk(next, rest)
  {
    assert ([attr] + rest)[1..] == rest;
  }

  /** The first two field names lead from the example document to its
      `children` list. */
  lemma ExampleWalkHead(n: string, attrs: seq<string>)
    requires |attrs| >= 2 && attrs[0] == "node" && attrs[1] == "children"
    ensures Walk(ExampleDocument(n), attrs) == Walk(Arr([ExampleElement(n), ExampleElement(n)]), attrs[2..])
  {
    ExampleTopLookups(n);
    WalkFirst(ExampleDocument(n), attrs, ExampleNode(n));
    WalkFirst(ExampleNode(n), attrs[1..], Arr([ExampleElement(n), ExampleElement(n)]));
    assert attrs[1..][1..] == attrs[2..];
  }

  /** The last three field names project `name` across the list. */
  lemma ExampleWalkTail(n: string, attrs: seq<string>)
    requires n != "" && attrs == ["node3", "children", "name"]
    ensures Walk(Arr([ExampleElement(n), ExampleElement(n)]), attrs) == Arr([Str(n), Str(n)])
  {
    var v2 := Arr([ExampleElement(n), ExampleElement(n)]);
    var v3 := Arr([ExampleEntry(n), ExampleEntry(n)]);
    var v4 := Arr([ExampleLeaf(n), ExampleLeaf(n)]);
    ExampleNode3Step(n);
    assert attrs == [attrs[0]] + attrs[1..];
    WalkStep(v2, attrs[0], attrs[1..], v3);
    ExampleChildrenStep(n);
    assert attrs[1..] == [attrs[1]] + attrs[2..];
    WalkStep(v3, attrs[1], attrs[2..], v4);
    ExampleNameStep(n);
    assert attrs[2..] == [attrs[2]] + [];
    WalkStep(v4, attrs[2], [], Arr([Str(n), Str(n)]));
  }

  /** `node.children.node3.children.name` projects `name` across both
      elements of the `children` list: the answer is `['name', 'name']`
      (for any non-empty `name` value). */
  lemma QueryProjectsAcrossLists(n: string, path: string)
    requires n != "" && path == "node.children.node3.children.name"
    ensures Query(ExampleDocument(n), path) == Success("Information found", Arr([Str(n), Str(n)]))
  {
    var dot := ".";
    ExamplePathSplits(path, dot);
    var attrs := Split(path, dot);
    ExampleWalkHead(n, attrs);
    assert attrs[2..] == ["node3", "children", "name"];
    ExampleWalkTail(n, attrs[2..]);
  }

  // ------------------------------------------------------------ loadData

  /** What the XML parser does with a text: a tree, or a thrown value whose
      `stack` is given ("" when it has none). */
  datatype ParseOutcome = Parsed(tree: Value) | ParseFailed(stack: string)

  /** What `loadData(path)` answers, given what the file reader returns for
      the path and what the parser makes of the text read. */
  function LoadResult(path: string, read: string -> Response<string>, parse: string -> ParseOutcome): (r: Response<Value>)
    ensures path == "" ==> r.Failure? && r.code == InvalidPathError
    ensures path != "" && read(path).Failure? ==> r == read(path).Forward()
    ensures r.Success? ==> path != "" && read(path).Success? && parse(read(path).payload) == Parsed(r.payload)
    ensures path != "" && read(path).Success? && parse(read(path).payload).Parsed? ==>
              r == Success("The xmlData was parsed successfully", parse(read(path).payload).tree)
    ensures path != "" && read(path).Success? && parse(read(path).payload).ParseFailed? ==>
              && r.Failure? && r.code == XmlParseError
              && Contains(r.message, read(path).payload)
              && r.context == Detail(if parse(read(path).payload).stack != "" then parse(read(path).payload).stack
                                     else "XmlData.loadDAta")
  {
    if path == "" then
      Failure(InvalidPathError, "The path is null or undefined", CallStack)
    else if read(path).Failure? then
      read(path).Forward()
    else
      var text := read(path).payload;
      match parse(text)
      case Parsed(tree) => Success("The xmlData was parsed successfully", tree)
      case ParseFailed(stack) =>
        ContainsMiddle("The content ", text, " couldnt be converted into a json");
        Failure(XmlParseError, "The content " + text + " couldnt be converted into a json",
                Detail(if stack != "" then stack else "XmlData.loadDAta"))
  }

  // ------------------------------------------------------- the document slot

  class XmlData {
    /** The parsed document; undefined when none is loaded. */
    var xmlData: Value

    constructor ()
      ensures xmlData == Undef && !IsThereData()
    {
      xmlData := Undef;
    }

    /** `isThereData()`: `!!this.xmlData`. */
    function IsThereData(): (b: bool)
      reads this
      ensures b <==> Truthy(xmlData)
    {
      Truthy(xmlData)
    }

    /** `loadData(path)`: on success the parsed tree replaces the document
        and is the payload; every error leaves the document as it was. */
    method LoadData(path: string, read: string -> Response<string>, parse: string -> ParseOutcome)
      returns (r: Response<Value>)
      modifies this
      ensures r == LoadResult(path, read, parse)
      ensures r.Success? ==> xmlData == r.payload
      ensures r.Failure? ==> xmlData == old(xmlData)
      ensures IsThereData() <==> if r.Success? then Truthy(r.payload) else old(IsThereData())
    {
      if path == "" {
        return Failure(InvalidPathError, "The path is null or undefined", CallStack);
      }
      var xmlText := read(path);
      if xmlText.Failure? {
        return xmlText.Forward();
      }
      var parsed := parse(xmlText.payload);
      match parsed {
        case Parsed(tree) =>
          xmlData := tree;
          return Success("The xmlData was parsed successfully", xmlData);
        case ParseFailed(stack) =>
          return Failure(XmlParseError, "The content " + xmlText.payload + " couldnt be converted into a json",
                         Detail(if stack != "" then stack else "XmlData.loadDAta"));
      }
    }

    /** `clearData()`: forgets the document. */
    method ClearData()
      modifies this
      ensures xmlData == Undef && !IsThereData()
    {
      xmlData := Undef;
    }

    /** `doQuery(path)`: split the path on '.', walk it from the document,
        and report an empty outcome as QUERY_NOT_FOUND_DATA. */
    method DoQuery(path: string) returns (r: Response<Value>)
      ensures r == Query(xmlData, path)
    {
      var attrs := Split(path, ".");
      var index := 0;
      var result := xmlData;
      while Truthy(result) && index < |attrs|
        invariant 0 <= index <= |attrs|
        invariant Walk(result, attrs[index..]) == Walk(xmlData, attrs)
      {
        result := SearchData(attrs[index], result);
        index := index + 1;
      }
      if (result.Arr? && |result.items| == 0) || !Truthy(result) {
        return Failure(QueryNotFoundData, "Any information could be found in the path " + path, CallStack);
      }
      return Success("Information found", result);
    }
  }
}
