/** The view store: a table of named values built from query results. Only
    truthy values are ever stored; the names are listed in the order they
    were first stored. A stored string or list of strings can be split into
    a list of pieces. */
module ViewsService {
  import opened JsValues
  import opened JsStrings
  import opened Entities

  // ------------------------------------------------ the list split pipeline

  /** `.filter((item) => typeof item === 'string')`: the string elements, in
      order. */
  function StringItems(items: seq<Value>): (r: seq<string>)
    ensures |r| <= |items|
  {
    if items == [] then []
    else (if items[0].Str? then [items[0].s] else []) + StringItems(items[1..])
  }

  /** The strings kept are exactly those of the string elements. */
  lemma {:induction false} StringItemsMembers(items: seq<Value>)
    ensures forall s :: s in StringItems(items) <==> Str(s) in items
  {
    if items != [] {
      StringItemsMembers(items[1..]);
      assert forall v :: v in items <==> v == items[0] || v in items[1..];
    }
  }

  /** `.map((item) => item.split(separator))`. */
  function SplitEach(ss: seq<string>, sep: string): (r: seq<seq<string>>)
    ensures |r| == |ss|
    ensures forall i :: 0 <= i < |ss| ==> r[i] == Split(ss[i], sep)
  {
    seq(|ss|, i requires 0 <= i < |ss| => Split(ss[i], sep))
  }

  /** `.flat()` on a list of lists: their elements, one list after another. */
  function Concat(xss: seq<seq<string>>): (r: seq<string>)
    ensures forall p :: p in r <==> exists i :: 0 <= i < |xss| && p in xss[i]
  {
    if xss == [] then [] else xss[0] + Concat(xss[1..])
  }

  /** `.map((item) => item.trim())`. */
  function TrimEach(ss: seq<string>): (r: seq<string>)
    ensures |r| == |ss|
    ensures forall i :: 0 <= i < |ss| ==> r[i] == Trim(ss[i])
  {
    seq(|ss|, i requires 0 <= i < |ss| => Trim(ss[i]))
  }

  /** `.filter((item) => item.length > 0)`. */
  function NonEmpty(ss: seq<string>): (r: seq<string>)
    ensures forall p :: p in r <==> p in ss && p != ""
    ensures |r| <= |ss|
  {
    if ss == [] then []
    else
      assert forall p :: p in ss <==> p == ss[0] || p in ss[1..];
      (if ss[0] != "" then [ss[0]] else []) + NonEmpty(ss[1..])
  }

  /** What splitting a list view yields: the string elements split by the
      separator, flattened, trimmed, with the empty pieces dropped. */
  function SplitItems(items: seq<Value>, sep: string): (r: seq<string>)
    ensures |r| <= |Concat(SplitEach(StringItems(items), sep))|
  {
    NonEmpty(TrimEach(Concat(SplitEach(StringItems(items), sep))))
  }

  lemma {:induction false} StringItemsAppend(a: seq<Value>, b: seq<Value>)
    ensures StringItems(a + b) == StringItems(a) + StringItems(b)
  {
    if a == [] {
      assert a + b == b;
    } else {
      var head := if a[0].Str? then [a[0].s] else [];
      assert (a + b)[0] == a[0] && (a + b)[1..] == a[1..] + b;
      StringItemsAppend(a[1..], b);
      calc {
        StringItems(a + b);
        head + StringItems(a[1..] + b);
        head + (StringItems(a[1..]) + StringItems(b));
        (head + StringItems(a[1..])) + StringItems(b);
        StringItems(a) + StringItems(b);
      }
    }
  }

  lemma {:induction false} ConcatAppend(a: seq<seq<string>>, b: seq<seq<string>>)
    ensures Concat(a + b) == Concat(a) + Concat(b)
  {
    if a == [] {
      assert a + b == b;
    } else {
      assert (a + b)[1..] == a[1..] + b;
      ConcatAppend(a[1..], b);
    }
  }

  lemma {:induction false} NonEmptyAppend(a: seq<string>, b: seq<string>)
    ensures NonEmpty(a + b) == NonEmpty(a) + NonEmpty(b)
  {
    if a == [] {
      assert a + b == b;
    } else {
      assert (a + b)[1..] == a[1..] + b;
      NonEmptyAppend(a[1..], b);
    }
  }

  lemma SplitEachAppend(a: seq<string>, b: seq<string>, sep: string)
    ensures SplitEach(a + b, sep) == SplitEach(a, sep) + SplitEach(b, sep)
  {
    assert forall i :: 0 <= i < |a| + |b| ==> (a + b)[i] == if i < |a| then a[i] else b[i - |a|];
  }

  lemma TrimEachAppend(a: seq<string>, b: seq<string>)
    ensures TrimEach(a + b) == TrimEach(a) + TrimEach(b)
  {
    assert forall i :: 0 <= i < |a| + |b| ==> (a + b)[i] == if i < |a| then a[i] else b[i - |a|];
  }

  /** The pipeline works element by element: splitting `a + b` gives the
      pieces of `a` followed by the pieces of `b`. */
  lemma SplitItemsAppend(a: seq<Value>, b: seq<Value>, sep: string)
    ensures SplitItems(a + b, sep) == SplitItems(a, sep) + SplitItems(b, sep)
  {
    var sa, sb := StringItems(a), StringItems(b);
    StringItemsAppend(a, b);
    var ea, eb := SplitEach(sa, sep), SplitEach(sb, sep);
    SplitEachAppend(sa, sb, sep);
    var ca, cb := Concat(ea), Concat(eb);
    ConcatAppend(ea, eb);
    var ta, tb := TrimEach(ca), TrimEach(cb);
    TrimEachAppend(ca, cb);
    NonEmptyAppend(ta, tb);
    calc {
      SplitItems(a + b, sep);
      NonEmpty(TrimEach(Concat(SplitEach(sa + sb, sep))));
      NonEmpty(TrimEach(Concat(ea + eb)));
      NonEmpty(TrimEach(ca + cb));
      NonEmpty(ta + tb);
      NonEmpty(ta) + NonEmpty(tb);
    }
  }

  /** One string element contributes its trimmed, non-empty pieces; any
      other element contributes nothing. */
  lemma SplitItemsSingle(v: Value, sep: string)
    ensures SplitItems([v], sep) == if v.Str? then NonEmpty(TrimEach(Split(v.s, sep))) else []
  {
    var ss := StringItems([v]);
    assert [v][1..] == [];
    if v.Str? {
      assert ss == [v.s];
      var se := SplitEach(ss, sep);
      assert se == [Split(v.s, sep)];
      assert se[1..] == [];
      assert Concat(se) == Split(v.s, sep);
    } else {
      assert ss == [];
    }
  }

  /** Every piece of a list split is non-empty and trimmed. */
  lemma SplitItemsTrimmed(items: seq<Value>, sep: string)
    ensures forall p :: p in SplitItems(items, sep) ==> p != "" && IsTrimmed(p)
  {
    var ts := TrimEach(Concat(SplitEach(StringItems(items), sep)));
    forall p | p in SplitItems(items, sep) ensures p != "" && IsTrimmed(p) {
      var k :| 0 <= k < |ts| && ts[k] == p;
    }
  }

  /** Elements that are not strings are skipped without a trace. */
  lemma SplitItemsIgnoresNonStrings(a: seq<Value>, v: Value, b: seq<Value>, sep: string)
    requires !v.Str?
    ensures SplitItems(a + [v] + b, sep) == SplitItems(a + b, sep)
  {
    SplitItemsAppend(a + [v], b, sep);
    SplitItemsAppend(a, [v], sep);
    SplitItemsAppend(a, b, sep);
    SplitItemsSingle(v, sep);
  }

  /** Every piece comes from some string element: it is the trimmed form
      of one of that element's split pieces. */
  lemma SplitItemsOrigin(items: seq<Value>, sep: string, p: string)
    requires p in SplitItems(items, sep)
    ensures exists s :: Str(s) in items && exists q :: q in Split(s, sep) && p == Trim(q)
  {
    var ss := StringItems(items);
    var se := SplitEach(ss, sep);
    var cs := Concat(se);
    var ts := TrimEach(cs);
    assert p in ts;
    var k :| 0 <= k < |ts| && ts[k] == p;
    assert cs[k] in cs;
    var i :| 0 <= i < |se| && cs[k] in se[i];
    assert ss[i] in ss;
    StringItemsMembers(items);
    assert Str(ss[i]) in items;
    assert cs[k] in Split(ss[i], sep) && p == Trim(cs[k]);
  }

  // ------------------------------------------------- pieces avoid the separator

  /** A piece as the list pipeline leaves it: non-empty, trimmed, and
      free of the separator. */
  predicate Clean(p: string, sep: string) {
    p != "" && IsTrimmed(p) && !Contains(p, sep)
  }


  /** The first piece of a split is a prefix of the string. */
  lemma {:induction false} SplitFirstIsPrefix(s: string, sep: string)
    requires sep != ""
    ensures |Split(s, sep)[0]| <= |s| && Split(s, sep)[0] == s[..|Split(s, sep)[0]|]
    decreases |s|
  {
    if |s| < |sep| {
    } else if s[..|sep|] == sep {
      SplitStartingWithSeparator(s, sep);
    } else {
      var rest := Split(s[1..], sep);
      SplitNotStartingWithSeparator(s, sep);
      SplitFirstIsPrefix(s[1..], sep);
      var k := |rest[0]|;
      assert rest[0] == s[1..][..k];
      assert [s[0]] + s[1..][..k] == s[..k + 1];
    }
  }

  /** No piece of `s.split(sep)` contains `sep`. */
  lemma {:induction false} SplitPiecesAvoidSeparator(s: string, sep: string)
    requires sep != ""
    ensures forall p :: p in Split(s, sep) ==> !Contains(p, sep)
    decreases |s|
  {
    if |s| < |sep| {
      forall i | 0 <= i <= |s| ensures !OccursAt(s, sep, i) { }
    } else if s[..|sep|] == sep {
      SplitPiecesAvoidSeparator(s[|sep|..], sep);
      assert !OccursAt("", sep, 0);
    } else {
      var rest := Split(s[1..], sep);
      SplitPiecesAvoidSeparator(s[1..], sep);
      SplitFirstIsPrefix(s[1..], sep);
      var head := [s[0]] + rest[0];
      assert head == s[..|head|];
      assert rest[0] in rest;
      forall i | 0 <= i <= |head| && i + |sep| <= |head| ensures !OccursAt(head, sep, i) {
        if i == 0 {
          assert head[..|sep|] == s[..|sep|];
        } else {
          assert head[i..i + |sep|] == rest[0][i - 1..i - 1 + |sep|];
          assert !OccursAt(rest[0], sep, i - 1);
        }
      }
      assert Split(s, sep) == [head] + rest[1..];
      assert forall p :: p in rest[1..] ==> p in rest;
    }
  }

  /** A slice of a string that avoids `sep` avoids it too. */
  lemma SliceAvoidsSeparator(s: string, i: nat, j: nat, sep: string)
    requires i <= j <= |s| && !Contains(s, sep)
    ensures !Contains(s[i..j], sep)
  {
    if Contains(s[i..j], sep) {
      var t := s[i..j];
      var k :| 0 <= k <= |t| && OccursAt(t, sep, k);
      assert forall m :: k <= m < k + |sep| ==> t[m] == s[i + m];
      assert t[k..k + |sep|] == s[i + k..i + k + |sep|];
      assert OccursAt(s, sep, i + k);
    }
  }

  /** Every piece of a list split is non-empty, trimmed and free of the
      separator. */
  lemma SplitItemsPieces(items: seq<Value>, sep: string)
    requires sep != ""
    ensures forall p :: p in SplitItems(items, sep) ==> Clean(p, sep)
  {
    SplitItemsTrimmed(items, sep);
    forall p | p in SplitItems(items, sep) ensures !Contains(p, sep) {
      SplitItemsOrigin(items, sep, p);
      var s :| Str(s) in items && exists q :: q in Split(s, sep) && p == Trim(q);
      var q :| q in Split(s, sep) && p == Trim(q);
      SplitPiecesAvoidSeparator(s, sep);
      var i, j :| 0 <= i <= j <= |q| && Trim(q) == q[i..j];
      SliceAvoidsSeparator(q, i, j, sep);
    }
  }

  /** Pieces that are already non-empty, trimmed and free of the separator
      come back unchanged: splitting the result of a split again changes
      nothing. */
  lemma {:induction false} SplitItemsOfPieces(ps: seq<string>, sep: string)
    requires sep != ""
    requires forall k :: 0 <= k < |ps| ==> Clean(ps[k], sep)
    ensures SplitItems(StrValues(ps), sep) == ps
  {
    if ps != [] {
      var tail := ps[1..];
      forall k | 0 <= k < |tail| ensures Clean(tail[k], sep) {
        assert tail[k] == ps[k + 1];
      }
      SplitItemsOfPieces(tail, sep);
      SplitCleanPiece(ps[0], sep);
      var head := [Str(ps[0])];
      assert StrValues(ps) == head + StrValues(tail);
      SplitItemsAppend(head, StrValues(tail), sep);
      assert ps == [ps[0]] + tail;
    }
  }

  /** A clean piece on its own splits into itself. */
  lemma SplitCleanPiece(p: string, sep: string)
    requires sep != "" && Clean(p, sep)
    ensures SplitItems([Str(p)], sep) == [p]
  {
    SplitItemsSingle(Str(p), sep);
    SplitWithoutSeparator(p, sep);
    TrimKeepsTrimmed(p);
    assert TrimEach([p]) == [p];
    assert NonEmpty([p]) == [p] + NonEmpty([]);
  }


  /** Non-empty trimmed strings pass the trim and filter stages unchanged. */
  lemma {:induction false} TrimmedPiecesKept(ps: seq<string>)
    requires forall k :: 0 <= k < |ps| ==> ps[k] != "" && IsTrimmed(ps[k])
    ensures NonEmpty(TrimEach(ps)) == ps
  {
    if ps != [] {
      var tail := ps[1..];
      forall k | 0 <= k < |tail| ensures tail[k] != "" && IsTrimmed(tail[k]) {
        assert tail[k] == ps[k + 1];
      }
      TrimmedPiecesKept(tail);
      TrimKeepsTrimmed(ps[0]);
      assert TrimEach(ps) == [ps[0]] + TrimEach(tail);
      NonEmptyAppend([ps[0]], TrimEach(tail));
      assert NonEmpty([ps[0]]) == [ps[0]] + NonEmpty([]);
      assert ps == [ps[0]] + tail;
    }
  }

  /** A list of strings, each the `sep`-join of clean pieces. */
  function JoinedItems(groups: seq<seq<string>>, sep: string): (r: seq<Value>)
    ensures |r| == |groups|
  {
    seq(|groups|, g requires 0 <= g < |groups| => Str(Join(groups[g], sep)))
  }

  /** Splitting a list whose strings were each joined from clean pieces with
      a one-character separator gives all those pieces, in order:
      `['test1,test2', 'test3,test4']` split by `','` is
      `['test1', 'test2', 'test3', 'test4']`. */
  lemma {:induction false} SplitJoinedItems(groups: seq<seq<string>>, sep: string)
    requires |sep| == 1
    requires forall g :: 0 <= g < |groups| ==> |groups[g]| >= 1
    requires forall g, k :: 0 <= g < |groups| && 0 <= k < |groups[g]| ==> Clean(groups[g][k], sep)
    ensures SplitItems(JoinedItems(groups, sep), sep) == Concat(groups)
  {
    if groups != [] {
      var head := [Str(Join(groups[0], sep))];
      assert JoinedItems(groups, sep) == head + JoinedItems(groups[1..], sep);
      SplitItemsAppend(head, JoinedItems(groups[1..], sep), sep);
      SplitJoinedGroup(groups[0], sep);
      SplitJoinedItems(groups[1..], sep);
    }
  }

  /** One string joined from clean pieces splits back into them. */
  lemma SplitJoinedGroup(group: seq<string>, sep: string)
    requires |sep| == 1 && |group| >= 1
    requires forall k :: 0 <= k < |group| ==> Clean(group[k], sep)
    ensures SplitItems([Str(Join(group, sep))], sep) == group
  {
    SplitItemsSingle(Str(Join(group, sep)), sep);
    JoinSplitRoundTrip(group, sep);
    TrimmedPiecesKept(group);
  }

  // --------------------------------------------------------- splitViewData

  /** What `splitViewData(name, separator)` answers for the value `view`
      stored under `name` (undefined when there is none). A string is split
      as it is; a list goes through the pipeline above and must leave at
      least one piece. */
  function SplitView(name: string, view: Value, sep: string): (r: Response<Value>)
    ensures !Truthy(view) ==> r.Failure? && r.code == ViewNotFound
    ensures Truthy(view) && !view.Arr? && !view.Str? ==> r.Failure? && r.code == ViewNotSplitable
    ensures view.Arr? ==> (r.Success? <==> SplitItems(view.items, sep) != [])
    ensures view.Arr? && r.Failure? ==> r.code == ViewNotSplitable
    ensures view.Arr? && r.Success? ==> r.payload == Arr(StrValues(SplitItems(view.items, sep)))
    ensures view.Str? ==> (r.Success? <==> view.s != "")
    ensures view.Str? && r.Success? ==> r.payload == Arr(StrValues(Split(view.s, sep)))
    ensures r.Failure? ==> Contains(r.message, name)
  {
    if !Truthy(view) then
      ContainsMiddle("There isnt any view with the name ", name, "");
      assert "There isnt any view with the name " + name + "" == "There isnt any view with the name " + name;
      Failure(ViewNotFound, "There isnt any view with the name " + name, CallStack)
    else if !view.Arr? && !view.Str? then
      ContainsMiddle("The view ", name, " cant be divided");
      Failure(ViewNotSplitable, "The view " + name + " cant be divided", CallStack)
    else if view.Arr? && SplitItems(view.items, sep) == [] then
      ContainsMiddle("The view ", name, " cant be divided");
      Failure(ViewNotSplitable, "The view " + name + " cant be divided", CallStack)
    else
      var pieces := if view.Arr? then SplitItems(view.items, sep) else Split(view.s, sep);
      Success("The data of the view " + name + " was splitted", Arr(StrValues(pieces)))
  }

  /** The strings of a list of string values. */
  function Texts(vs: seq<Value>): (r: seq<string>)
    requires forall k :: 0 <= k < |vs| ==> vs[k].Str?
    ensures |r| == |vs| && forall k :: 0 <= k < |vs| ==> vs[k] == Str(r[k])
  {
    seq(|vs|, k requires 0 <= k < |vs| => vs[k].s)
  }

  /** Splitting a string view and joining the pieces back with the same
      separator gives the stored string. */
  lemma SplitStringJoinsBack(name: string, s: string, sep: string)
    requires s != ""
    ensures SplitView(name, Str(s), sep).Success?
    ensures var ps := SplitView(name, Str(s), sep).payload.items;
            (forall k :: 0 <= k < |ps| ==> ps[k].Str?) && Join(Texts(ps), sep) == s
  {
    var ps := SplitView(name, Str(s), sep).payload.items;
    assert Texts(ps) == Split(s, sep);
    SplitJoinRoundTrip(s, sep);
  }

  /** Splitting a list view, storing the result and splitting that again by
      the same (non-empty) separator gives the same pieces: the pieces are
      trimmed, non-empty and free of the separator already. */
  lemma SplitListTwice(name: string, items: seq<Value>, other: string, sep: string)
    requires sep != "" && SplitView(name, Arr(items), sep).Success?
    ensures SplitView(other, SplitView(name, Arr(items), sep).payload, sep)
            == Success("The data of the view " + other + " was splitted", SplitView(name, Arr(items), sep).payload)
  {
    var ps := SplitItems(items, sep);
    SplitItemsPieces(items, sep);
    SplitItemsOfPieces(ps, sep);
  }

  // -------------------------------------------------------- the view table

  class Views {
    /** The stored views by name. */
    var viewsStored: map<string, Value>
    /** The names of the stored views, in the order `Object.keys` lists
        them: the order in which each was first stored. */
    var names: seq<string>

    /** The names list exactly the stored views, once each, and only truthy
        values are stored. */
    ghost predicate Valid()
      reads this
    {
      && (forall n :: n in viewsStored <==> n in names)
      && (forall i, j :: 0 <= i < j < |names| ==> names[i] != names[j])
      && (forall n :: n in viewsStored ==> Truthy(viewsStored[n]))
    }

    constructor ()
      ensures Valid() && viewsStored == map[] && names == []
    {
      viewsStored := map[];
      names := [];
    }

    /** `this.viewsStored[name]`: undefined when nothing is stored under
        `name`. */
    function ViewOf(name: string): (v: Value)
      reads this
      ensures v == if name in viewsStored then viewsStored[name] else Undef
      ensures Valid() && name in viewsStored ==> Truthy(v)
    {
      if name in viewsStored then viewsStored[name] else Undef
    }

    /** `storeView(name, data)`: falsy data is refused and nothing changes;
        otherwise `name` now holds `data` (replacing what it held), a new
        name goes to the end of the list and an old one keeps its place. */
    method StoreView(name: string, data: Value) returns (r: Response<Value>)
      requires Valid()
      modifies this
      ensures Valid()
      ensures !Truthy(data) ==> r == Failure(DataToViewEmpty, "The data recived has the value " + FalsyText(data), CallStack)
      ensures !Truthy(data) ==> viewsStored == old(viewsStored) && names == old(names)
      ensures Truthy(data) ==> r == Success("Data stored successfully", data)
      ensures Truthy(data) ==> viewsStored == old(viewsStored)[name := data]
      ensures Truthy(data) ==> names == if name in old(viewsStored) then old(names) else old(names) + [name]
      ensures Truthy(data) ==> GetViewData(name) == Success("Content of the view " + name, data)
      ensures forall n :: n != name ==> ViewOf(n) == old(ViewOf(n))
    {
      if !Truthy(data) {
        return Failure(DataToViewEmpty, "The data recived has the value " + FalsyText(data), CallStack);
      }
      if name !in viewsStored {
        names := names + [name];
      }
      viewsStored := viewsStored[name := data];
      return Success("Data stored successfully", data);
    }

    /** `removeAllViews()`: the table is emptied. */
    method RemoveAllViews()
      modifies this
      ensures Valid() && viewsStored == map[] && names == []
    {
      viewsStored := map[];
      names := [];
    }

    /** `listViews()`: the names of the stored views, each once, in the
        order they were first stored. */
    function ListViews(): (r: Response<seq<string>>)
      reads this
      ensures r.Success? && r.message == "List of the current views" && r.payload == names
      ensures Valid() ==> (forall n :: n in r.payload <==> n in viewsStored)
      ensures Valid() ==> forall i, j :: 0 <= i < j < |r.payload| ==> r.payload[i] != r.payload[j]
    {
      Success("List of the current views", names)
    }

    /** `getViewData(name)`: the stored value, or VIEW_NOT_FOUND naming the
        view. Since only truthy values are stored, it finds exactly the
        stored names. */
    function GetViewData(name: string): (r: Response<Value>)
      reads this
      ensures r.Success? <==> name in viewsStored && Truthy(viewsStored[name])
      ensures Valid() ==> (r.Success? <==> name in viewsStored)
      ensures r.Success? ==> r.message == "Content of the view " + name && r.payload == viewsStored[name]
      ensures r.Failure? ==> r.code == ViewNotFound && Contains(r.message, name)
    {
      var view := ViewOf(name);
      if Truthy(view) then
        Success("Content of the view " + name, view)
      else
        ContainsMiddle("There isnt any view with the name ", name, "");
        assert "There isnt any view with the name " + name + "" == "There isnt any view with the name " + name;
        Failure(ViewNotFound, "There isnt any view with the name " + name, CallStack)
    }

    /** `splitViewData(name, separator)`: splits the view stored under
        `name`; it only reads the table. */
    function SplitViewData(name: string, sep: string): (r: Response<Value>)
      reads this
      ensures name !in viewsStored ==> r.Failure? && r.code == ViewNotFound && Contains(r.message, name)
      ensures name in viewsStored ==> r == SplitView(name, viewsStored[name], sep)
    {
      SplitView(name, ViewOf(name), sep)
    }
  }

  // ------------------------------------------------------- usage scenarios

  /** Storing a truthy value and reading it back by name returns it. */
  method StoreThenGet(name: string, data: Value) returns (r: Response<Value>)
    requires Truthy(data)
    ensures r == Success("Content of the view " + name, data)
  {
    var views := new Views();
    var stored := views.StoreView(name, data);
    r := views.GetViewData(name);
  }

  /** Two names stored one after the other are listed in that order, and
      storing the first one again does not move it. */
  method ListInStoreOrder(first: string, second: string, data: Value, other: Value)
    returns (r: Response<seq<string>>)
    requires first != second && Truthy(data) && Truthy(other)
    ensures r == Success("List of the current views", [first, second])
  {
    var views := new Views();
    var s1 := views.StoreView(first, data);
    assert views.names == [first] && first in views.viewsStored;
    var s2 := views.StoreView(second, data);
    assert views.names == [first, second] && first in views.viewsStored;
    var s3 := views.StoreView(first, other);
    assert views.names == [first, second];
    r := views.ListViews();
  }

  /** After `removeAllViews` the list is empty and no name is found. */
  method ListAfterRemoveAll(name: string, data: Value)
    returns (r: Response<seq<string>>, g: Response<Value>)
    ensures r == Success("List of the current views", [])
    ensures g.Failure? && g.code == ViewNotFound
  {
    var views := new Views();
    var s := views.StoreView(name, data);
    views.RemoveAllViews();
    r := views.ListViews();
    g := views.GetViewData(name);
  }
}
