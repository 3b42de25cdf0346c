/** The controller: each operation checks its arguments in a fixed order
    and only then consults the document store or the view store. `appHelp`
    walks the command grammar one word at a time and lists what may follow. */
module Controller {
  import opened JsValues
  import opened JsStrings
  import opened Entities
  import opened CommandHelp
  import opened XmlDataService
  import opened ViewsService

  // ---------------------------------------------------------------- appHelp

  /** The walk of `appHelp` from the entry reached so far: each word picks
      a child of the current entry; an unknown word leaves nothing. A word
      after an argument entry also leaves nothing (the source throws there;
      see `DescendAsWritten`). */
  function Descend(command: Option<CommandNode>, tokens: seq<string>): (r: Option<CommandNode>)
    ensures command.None? ==> r.None?
    ensures tokens == [] ==> r == command
    decreases |tokens|
  {
    if command.None? || tokens == [] then command
    else if command.value.nodes.Absent? then None
    else Descend(Child(command.value.nodes.entries, tokens[0]), tokens[1..])
  }

  /** Walking `a + b` is walking `a` and then `b`. */
  lemma {:induction false} DescendAppend(command: Option<CommandNode>, a: seq<string>, b: seq<string>)
    ensures Descend(command, a + b) == Descend(Descend(command, a), b)
    decreases |a|
  {
    if a == [] {
      assert a + b == b;
    } else if command.Some? && command.value.nodes.Present? {
      assert (a + b)[1..] == a[1..] + b;
      DescendAppend(Child(command.value.nodes.entries, a[0]), a[1..], b);
    }
  }

  /** The lines listed for the top-level commands: `new HelpNode(option,
      text)`, so none is marked as an argument. */
  function BaseHelpNodes(level: Level): (r: seq<HelpNode>)
    ensures |r| == |level|
    ensures forall i :: 0 <= i < |level| ==>
              r[i].option == level[i].word && r[i].text == level[i].node.text && !r[i].isArgument
  {
    seq(|level|, i requires 0 <= i < |level| => NewHelpNode(level[i].word, level[i].node.text))
  }

  /** The lines listed for the words after a command, with their argument
      flags. */
  function HelpNodes(level: Level): (r: seq<HelpNode>)
    ensures |r| == |level|
    ensures forall i :: 0 <= i < |level| ==>
              r[i].option == level[i].word && r[i].text == level[i].node.text && r[i].isArgument == level[i].node.arg
  {
    seq(|level|, i requires 0 <= i < |level| => NewHelpNode(level[i].word, level[i].node.text, level[i].node.arg))
  }

  /** What `appHelp(commands)` answers: the top-level commands for no
      words; the words that may follow when the walk ends on a command that
      has any; INVALID_COMMAND_ERROR, quoting the words, otherwise. */
  function Help(commands: seq<string>): (r: Response<seq<HelpNode>>)
    ensures commands == [] ==> r == Success("Base commands", BaseHelpNodes(Commands))
    ensures commands != [] ==>
              (r.Success? <==> var c := Descend(Child(Commands, commands[0]), commands[1..]);
                                c.Some? && c.value.nodes.Present?)
    ensures commands != [] && r.Success? ==>
              var c := Descend(Child(Commands, commands[0]), commands[1..]);
              r.message == "Command found" && r.payload == HelpNodes(c.value.nodes.entries)
    ensures r.Failure? ==> r.code == InvalidCommandError && Contains(r.message, Join(commands, " "))
  {
    if commands == [] then
      Success("Base commands", BaseHelpNodes(Commands))
    else
      var command := Descend(Child(Commands, commands[0]), commands[1..]);
      if command.Some? && command.value.nodes.Present? then
        Success("Command found", HelpNodes(command.value.nodes.entries))
      else
        ContainsMiddle("The command ", Join(commands, " "), " is not a valid command");
        Failure(InvalidCommandError, "The command " + Join(commands, " ") + " is not a valid command", CallStack)
  }

  /** With no words, the help lists the one top-level command. */
  lemma HelpBase()
    ensures Help([]) == Success("Base commands", [HelpNode("load", "Load info into the app", false)])
  {
    var b := BaseHelpNodes(Commands);
    assert |b| == 1 && b[0] == HelpNode("load", "Load info into the app", false);
    assert b == [HelpNode("load", "Load info into the app", false)];
  }

  /** A one-entry level has exactly its word as a child. */
  lemma ChildOfSingle(e: Entry, w: string)
    ensures Child([e], w) == if w == e.word then Some(e.node) else None
  {
  }

  /** The walk below an argument entry finds nothing. */
  lemma DescendArgument(tokens: seq<string>, k: nat)
    requires k < |ArgumentLevel()|
    ensures Descend(Some(ArgumentLevel()[k].node), tokens) == if tokens == [] then Some(ArgumentLevel()[k].node) else None
  {
  }

  /** `appHelp` succeeds for exactly four word lists: none, `load`,
      `load xml` and `load xml file`. */
  lemma {:induction false} HelpSucceedsExactly(commands: seq<string>)
    ensures Help(commands).Success? <==>
              commands == [] || commands == ["load"] || commands == ["load", "xml"]
              || commands == ["load", "xml", "file"]
  {
    if commands != [] {
      var load := CommandNode("Load info into the app", false, Present(XmlLevel()));
      var xml := CommandNode("The information is in xml format", false, Present(FileLevel()));
      var file := CommandNode("The information is inside a file", false, Present(ArgumentLevel()));
      ChildOfSingle(Commands[0], commands[0]);
      if commands[0] != "load" {
        assert commands != ["load"] && commands != ["load", "xml"] && commands != ["load", "xml", "file"];
      } else if |commands| == 1 {
        assert commands == ["load"];
      } else {
        ChildOfSingle(XmlLevel()[0], commands[1]);
        assert Descend(Some(load), commands[1..]) == Descend(Child(XmlLevel(), commands[1]), commands[2..]);
        if commands[1] != "xml" {
          assert commands != ["load", "xml"] && commands != ["load", "xml", "file"];
        } else if |commands| == 2 {
          assert commands == ["load", "xml"];
        } else {
          ChildOfSingle(FileLevel()[0], commands[2]);
          assert Descend(Some(xml), commands[2..]) == Descend(Child(FileLevel(), commands[2]), commands[3..]);
          if commands[2] != "file" {
            assert commands != ["load", "xml", "file"];
          } else if |commands| == 3 {
            assert commands == ["load", "xml", "file"];
          } else {
            var c := Child(ArgumentLevel(), commands[3]);
            assert Descend(Some(file), commands[3..]) == Descend(c, commands[4..]);
            if c.Some? {
              var k :| 0 <= k < |ArgumentLevel()| && ArgumentLevel()[k] == Entry(commands[3], c.value);
              DescendArgument(commands[4..], k);
            }
            assert |commands| > 3;
          }
        }
      }
    }
  }

  /** `load xml file` lists its two arguments, `path` then `force`. */
  lemma HelpAfterFile(commands: seq<string>)
    requires commands == ["load", "xml", "file"]
    ensures Help(commands) == Success("Command found", [
              HelpNode("path", "The path where the file is", true),
              HelpNode("force", "Overwrite the previous data", true)])
  {
    var load := CommandNode("Load info into the app", false, Present(XmlLevel()));
    var xml := CommandNode("The information is in xml format", false, Present(FileLevel()));
    var file := CommandNode("The information is inside a file", false, Present(ArgumentLevel()));
    ChildOfSingle(Commands[0], commands[0]);
    ChildOfSingle(XmlLevel()[0], commands[1]);
    ChildOfSingle(FileLevel()[0], commands[2]);
    assert Descend(Some(load), commands[1..]) == Descend(Some(xml), commands[2..]);
    assert Descend(Some(xml), commands[2..]) == Descend(Some(file), commands[3..]);
    assert commands[3..] == [];
    var h := HelpNodes(ArgumentLevel());
    assert |h| == 2;
    assert h[0] == HelpNode("path", "The path where the file is", true);
    assert h[1] == HelpNode("force", "Overwrite the previous data", true);
    assert h == [HelpNode("path", "The path where the file is", true),
                 HelpNode("force", "Overwrite the previous data", true)];
  }

  /** Where the walk as written stands: an entry reached (or undefined), or
      the TypeError thrown by reading a property of `undefined.nodes`. */
  datatype Walked = Reached(command: Option<CommandNode>) | Thrown

  /** The loop of `appHelp` as written: after an argument entry, which has
      no `nodes`, the next word is looked up in `undefined` and throws. */
  function DescendAsWritten(command: Option<CommandNode>, tokens: seq<string>): (r: Walked)
    ensures command.None? ==> r == Reached(None)
    ensures tokens == [] ==> r == Reached(command)
    ensures command.Some? && command.value.nodes.Absent? && tokens != [] ==> r == Thrown
    decreases |tokens|
  {
    if command.None? || tokens == [] then Reached(command)
    else if command.value.nodes.Absent? then Thrown
    else DescendAsWritten(Child(command.value.nodes.entries, tokens[0]), tokens[1..])
  }

  /** The walk stands on an argument entry, which has no sub-commands. */
  predicate OnArgument(command: Option<CommandNode>) {
    command.Some? && command.value.nodes.Absent?
  }

  /** The loop as written throws exactly when the corrected walk, after
      some of the words, stands on an argument and a word is still left. */
  lemma {:induction false} ThrowsAfterArgument(command: Option<CommandNode>, tokens: seq<string>)
    ensures DescendAsWritten(command, tokens).Thrown? <==>
              exists i :: 0 <= i < |tokens| && OnArgument(Descend(command, tokens[..i]))
    decreases |tokens|
  {
    if command.Some? && tokens != [] {
      if command.value.nodes.Absent? {
        assert tokens[..0] == [];
        assert OnArgument(Descend(command, tokens[..0]));
      } else {
        var child := Child(command.value.nodes.entries, tokens[0]);
        ThrowsAfterArgument(child, tokens[1..]);
        forall j | 0 <= j < |tokens| - 1
          ensures Descend(command, tokens[..j + 1]) == Descend(child, tokens[1..][..j])
        {
          assert tokens[..j + 1][1..] == tokens[1..][..j];
        }
        if DescendAsWritten(command, tokens).Thrown? {
          var j :| 0 <= j < |tokens| - 1 && OnArgument(Descend(child, tokens[1..][..j]));
          assert OnArgument(Descend(command, tokens[..j + 1]));
        } else {
          forall i | 0 <= i < |tokens| ensures !OnArgument(Descend(command, tokens[..i])) {
            if i == 0 {
              assert tokens[..0] == [];
            } else {
              assert Descend(command, tokens[..i]) == Descend(child, tokens[1..][..i - 1]);
            }
          }
        }
      }
    }
  }

  /** The corrected walk agrees with the walk as written wherever that one
      does not throw, and answers "nothing" exactly where it throws. */
  lemma {:induction false} DescendCorrectsThrow(command: Option<CommandNode>, tokens: seq<string>)
    ensures DescendAsWritten(command, tokens).Reached? ==> DescendAsWritten(command, tokens).command == Descend(command, tokens)
    ensures DescendAsWritten(command, tokens).Thrown? ==> Descend(command, tokens).None?
    decreases |tokens|
  {
    if command.Some? && tokens != [] && command.value.nodes.Present? {
      DescendCorrectsThrow(Child(command.value.nodes.entries, tokens[0]), tokens[1..]);
    }
  }

  /** `load xml file path x`: the word after the argument `path` makes the
      loop as written throw, where the corrected walk reports an invalid
      command. */
  lemma WordAfterArgumentThrows(commands: seq<string>, x: string)
    requires commands == ["load", "xml", "file", "path", x]
    ensures DescendAsWritten(Child(Commands, commands[0]), commands[1..]) == Thrown
    ensures Help(commands).Failure? && Help(commands).code == InvalidCommandError
  {
    var load := CommandNode("Load info into the app", false, Present(XmlLevel()));
    var xml := CommandNode("The information is in xml format", false, Present(FileLevel()));
    var file := CommandNode("The information is inside a file", false, Present(ArgumentLevel()));
    var path := ArgumentLevel()[0].node;
    ChildOfSingle(Commands[0], commands[0]);
    ChildOfSingle(XmlLevel()[0], commands[1]);
    ChildOfSingle(FileLevel()[0], commands[2]);
    assert Child(ArgumentLevel(), commands[3]) == Some(path);
    assert DescendAsWritten(Some(load), commands[1..]) == DescendAsWritten(Some(xml), commands[2..]);
    assert DescendAsWritten(Some(xml), commands[2..]) == DescendAsWritten(Some(file), commands[3..]);
    assert DescendAsWritten(Some(file), commands[3..]) == DescendAsWritten(Some(path), commands[4..]);
    DescendCorrectsThrow(Child(Commands, commands[0]), commands[1..]);
  }

  // ------------------------------------------------------------ the controller

  class InfoOperations {
    /** The document store and the view store the operations act on. */
    const xmlData: XmlData
    const views: Views

    constructor (xmlData: XmlData, views: Views)
      ensures this.xmlData == xmlData && this.views == views
    {
      this.xmlData := xmlData;
      this.views := views;
    }

    /** `loadXmlFile(path, force)`: an empty path is refused before the
        store is asked anything; a loaded document is only replaced when
        `force` is set; otherwise the path is handed to `loadData`. */
    method LoadXmlFile(path: string, force: bool := false, read: string -> Response<string>, parse: string -> ParseOutcome)
      returns (r: Response<Value>)
      modifies xmlData
      ensures path == "" ==> r == Failure(InvalidPathError, "The path is null or undefined", CallStack)
      ensures path != "" && old(xmlData.IsThereData()) && !force ==>
                r == Failure(DataWillBeLost, "Do you want to overwrite the current data?", CallStack)
      ensures path != "" && (force || !old(xmlData.IsThereData())) ==> r == LoadResult(path, read, parse)
      ensures r.Success? ==> xmlData.xmlData == r.payload
      ensures r.Failure? ==> xmlData.xmlData == old(xmlData.xmlData)
    {
      if path == "" {
        return Failure(InvalidPathError, "The path is null or undefined", CallStack);
      }
      var loaded := xmlData.IsThereData();
      if loaded && !force {
        return Failure(DataWillBeLost, "Do you want to overwrite the current data?", CallStack);
      }
      r := xmlData.LoadData(path, read, parse);
    }

    /** `appHelp(commands)`, with the loop and the two listing loops of the
        source. A word after an argument ends the walk with nothing found
        (the source throws; see `DescendAsWritten`). */
    method AppHelp(commands: seq<string>) returns (r: Response<seq<HelpNode>>)
      ensures r == Help(commands)
    {
      var index := 1;
      var command := if |commands| > 0 then Child(Commands, commands[0]) else None;
      var payload: seq<HelpNode> := [];
      if |commands| == 0 {
        for i := 0 to |Commands|
          invariant payload == BaseHelpNodes(Commands[..i])
        {
          payload := payload + [NewHelpNode(Commands[i].word, Commands[i].node.text)];
        }
        assert Commands[..|Commands|] == Commands;
        return Success("Base commands", payload);
      }
      while command.Some? && index < |commands|
        invariant 1 <= index <= |commands|
        invariant Descend(command, commands[index..]) == Descend(Child(Commands, commands[0]), commands[1..])
        decreases |commands| - index
      {
        command := if command.value.nodes.Present? then Child(command.value.nodes.entries, commands[index]) else None;
        index := index + 1;
      }
      if command.Some? && command.value.nodes.Present? {
        var entries := command.value.nodes.entries;
        for i := 0 to |entries|
          invariant payload == HelpNodes(entries[..i])
        {
          payload := payload + [NewHelpNode(entries[i].word, entries[i].node.text, entries[i].node.arg)];
        }
        assert entries[..|entries|] == entries;
        return Success("Command found", payload);
      }
      return Failure(InvalidCommandError, "The command " + Join(commands, " ") + " is not a valid command", CallStack);
    }

    /** `createViewNamed(query, name)`: an empty query, then an empty name,
        is refused; a failed query is returned as it is; otherwise what the
        query found is stored under `name`. */
    method CreateViewNamed(query: string, name: string) returns (r: Response<Value>)
      requires views.Valid()
      modifies views
      ensures views.Valid()
      ensures query == "" ==> r == Failure(InvalidQueryView, "The query for the view is empty", CallStack)
      ensures query != "" && name == "" ==> r == Failure(InvalidNameView, "The name for the view is empty", CallStack)
      ensures query != "" && name != "" && Query(xmlData.xmlData, query).Failure? ==> r == Query(xmlData.xmlData, query)
      ensures r.Failure? ==> views.viewsStored == old(views.viewsStored) && views.names == old(views.names)
      ensures query != "" && name != "" && Query(xmlData.xmlData, query).Success? ==>
                && r == Success("Data stored successfully", Query(xmlData.xmlData, query).payload)
                && views.viewsStored == old(views.viewsStored)[name := Query(xmlData.xmlData, query).payload]
                && views.names == (if name in old(views.viewsStored) then old(views.names) else old(views.names) + [name])
                && views.GetViewData(name).Success?
    {
      if query == "" {
        return Failure(InvalidQueryView, "The query for the view is empty", CallStack);
      }
      if name == "" {
        return Failure(InvalidNameView, "The name for the view is empty", CallStack);
      }
      var queryResult := xmlData.DoQuery(query);
      if queryResult.Failure? {
        return queryResult;
      }
      r := views.StoreView(name, queryResult.payload);
    }

    /** `getAllViews()`: the names of the stored views. */
    function GetAllViews(): (r: Response<seq<string>>)
      reads views
      ensures r.Success? && r.payload == views.names
      ensures views.Valid() ==> forall n :: n in r.payload <==> n in views.viewsStored
    {
      views.ListViews()
    }

    /** `getOneView(name)`: an empty name is refused, any other is looked
        up. */
    function GetOneView(name: string): (r: Response<Value>)
      reads views
      ensures name == "" ==> r == Failure(InvalidNameView, "The name for the view is empty", CallStack)
      ensures name != "" ==> r == views.GetViewData(name)
      ensures name != "" && views.Valid() ==> (r.Success? <==> name in views.viewsStored)
    {
      if name == "" then Failure(InvalidNameView, "The name for the view is empty", CallStack)
      else views.GetViewData(name)
    }

    /** `splitViewBy(name, separator)`: an empty name, then an empty
        separator, is refused; a failed split is returned as it is;
        otherwise the pieces are stored under `name + '_split'` and the view
        split is left as it was. */
    method SplitViewBy(name: string, sep: string) returns (r: Response<Value>)
      requires views.Valid()
      modifies views
      ensures views.Valid()
      ensures name == "" ==> r == Failure(InvalidNameView, "The name for the view is empty", CallStack)
      ensures name != "" && sep == "" ==> r == Failure(InvalidSeparatorView, "The separator for the view is empty", CallStack)
      ensures name != "" && sep != "" && old(views.SplitViewData(name, sep)).Failure? ==> r == old(views.SplitViewData(name, sep))
      ensures r.Failure? ==> views.viewsStored == old(views.viewsStored) && views.names == old(views.names)
      ensures name != "" && sep != "" && old(views.SplitViewData(name, sep)).Success? ==>
                && r == Success("Data stored successfully", old(views.SplitViewData(name, sep)).payload)
                && views.viewsStored == old(views.viewsStored)[name + "_split" := r.payload]
                && views.names == (if name + "_split" in old(views.viewsStored) then old(views.names)
                                   else old(views.names) + [name + "_split"])
      ensures views.ViewOf(name) == old(views.ViewOf(name))
    {
      if name == "" {
        return Failure(InvalidNameView, "The name for the view is empty", CallStack);
      }
      if sep == "" {
        return Failure(InvalidSeparatorView, "The separator for the view is empty", CallStack);
      }
      var newView := views.SplitViewData(name, sep);
      if newView.Failure? {
        return newView;
      }
      assert |name + "_split"| > |name|;
      r := views.StoreView(name + "_split", newView.payload);
    }

    /** `saveOneView(name, path)`: an empty name, then an empty path, is
        refused; otherwise the view store's `saveView(path, name)` answers,
        whose result is given. */
    method SaveOneView(name: string, path: string, saveView: (string, string) -> Response<seq<string>>)
      returns (r: Response<seq<string>>)
      ensures name == "" ==> r == Failure(InvalidNameView, "The name for the view is empty", CallStack)
      ensures name != "" && path == "" ==> r == Failure(InvalidPathError, "The path for the file is empty", CallStack)
      ensures name != "" && path != "" ==> r == saveView(path, name)
    {
      if name == "" {
        return Failure(InvalidNameView, "The name for the view is empty", CallStack);
      }
      if path == "" {
        return Failure(InvalidPathError, "The path for the file is empty", CallStack);
      }
      r := saveView(path, name);
    }

    /** `saveAllViews(path)`: an empty path is refused; otherwise the view
        store's `saveAllViews(path)` writes every view, and the first of its
        results is returned when it is an error. */
    method SaveAllViews(path: string, saveAll: string -> seq<Response<Value>>) returns (r: Response<Value>)
      ensures path == "" ==> r == Failure(InvalidPathError, "The path for the file is empty", CallStack)
      ensures path != "" && |saveAll(path)| > 0 && saveAll(path)[0].Failure? ==> r == saveAll(path)[0]
      ensures path != "" && (|saveAll(path)| == 0 || saveAll(path)[0].Success?) ==>
                r == Success("Views stores in path " + path, Undef)
    {
      if path == "" {
        return Failure(InvalidPathError, "The path for the file is empty", CallStack);
      }
      var result := saveAll(path);
      if |result| > 0 && result[0].Failure? {
        return result[0];
      }
      return Success("Views stores in path " + path, Undef);
    }

    /** `joinTwoViews(name1, name2)`: an empty name is refused; a failed
        mix is returned as it is; otherwise the mixed view is stored under
        `name1_name2_joined` and its content is returned. */
    method JoinTwoViews(name1: string, name2: string, mix: (string, string) -> Response<Value>)
      returns (r: Response<Value>)
      requires views.Valid()
      modifies views
      ensures views.Valid()
      ensures name1 == "" || name2 == "" ==> r == Failure(InvalidNameView, "The name for the view is empty", CallStack)
      ensures name1 != "" && name2 != "" && mix(name1, name2).Failure? ==> r == mix(name1, name2)
      ensures r.Failure? ==> views.viewsStored == old(views.viewsStored) && views.names == old(views.names)
      ensures name1 != "" && name2 != "" && mix(name1, name2).Success? && !Truthy(mix(name1, name2).payload) ==>
                r.Failure? && r.code == DataToViewEmpty
      ensures name1 != "" && name2 != "" && mix(name1, name2).Success? && Truthy(mix(name1, name2).payload) ==>
                && r == Success("Views " + name1 + " and " + name2 + " joined", mix(name1, name2).payload)
                && views.viewsStored == old(views.viewsStored)[name1 + "_" + name2 + "_joined" := r.payload]
                && views.names == (if name1 + "_" + name2 + "_joined" in old(views.viewsStored) then old(views.names)
                                   else old(views.names) + [name1 + "_" + name2 + "_joined"])
    {
      if name1 == "" || name2 == "" {
        return Failure(InvalidNameView, "The name for the view is empty", CallStack);
      }
      var joinedView := mix(name1, name2);
      if joinedView.Failure? {
        return joinedView;
      }
      var createViewResult := views.StoreView(name1 + "_" + name2 + "_joined", joinedView.payload);
      if createViewResult.Failure? {
        return createViewResult;
      }
      return Success("Views " + name1 + " and " + name2 + " joined", createViewResult.payload);
    }
  }
}
