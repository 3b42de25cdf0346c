/** The static command grammar: a tree of command words, each with a help
    text, a flag telling whether it is an argument, and (for the words that
    are not arguments) the words that may follow it, in declaration order. */
module CommandHelp {

  datatype Option<+T> = None | Some(value: T)

  /** One entry of `commandHelp`. `nodes` is absent on argument entries.
      No entry of the tree carries an argument type tag, so it is not a
      field here. */
  datatype CommandNode = CommandNode(text: string, arg: bool, nodes: Children)

  /** The `nodes` field of an entry: absent, or the words that may follow. */
  datatype Children = Absent | Present(entries: Level)

  /** A word and the entry it names. */
  datatype Entry = Entry(word: string, node: CommandNode)

  /** The words allowed at one position, in declaration order. */
  type Level = seq<Entry>

  /** `commandHelp`: `load xml file` followed by the arguments `path` and
      `force`. Each level of the tree is named, so that proofs can take the
      walk one level at a time. */
  const Commands: Level := [Entry("load", CommandNode("Load info into the app", false, Present(XmlLevel())))]

  /** The words after `load`. */
  function XmlLevel(): Level {
    [Entry("xml", CommandNode("The information is in xml format", false, Present(FileLevel())))]
  }

  /** The words after `load xml`. */
  function FileLevel(): Level {
    [Entry("file", CommandNode("The information is inside a file", false, Present(ArgumentLevel())))]
  }

  /** The arguments after `load xml file`. */
  function ArgumentLevel(): Level {
    [Entry("path", CommandNode("The path where the file is", true, Absent)),
     Entry("force", CommandNode("Overwrite the previous data", true, Absent))]
  }

  /** `level[word]`: the first entry named `word`, if any. */
  function Child(level: Level, word: string): (r: Option<CommandNode>)
    ensures r.Some? <==> exists i :: 0 <= i < |level| && level[i].word == word
    ensures r.Some? ==> exists i :: 0 <= i < |level| && level[i] == Entry(word, r.value)
  {
    if level == [] then None
    else if level[0].word == word then Some(level[0].node)
    else Child(level[1..], word)
  }

  /** Arguments are exactly the entries without sub-commands, all the way down. */
  predicate WellFormed(n: CommandNode) {
    && (n.arg <==> n.nodes.Absent?)
    && (n.nodes.Present? ==> forall e :: e in n.nodes.entries ==> WellFormed(e.node))
  }

  /** The tree has exactly one top-level command, `load`. */
  lemma OnlyLoadAtTop()
    ensures |Commands| == 1 && Commands[0].word == "load"
    ensures forall w :: Child(Commands, w).Some? <==> w == "load"
  {
  }

  /** `load`, `load xml` and `load xml file` are commands that are not
      arguments and have further words; after `file` come exactly the two
      arguments `path` and `force`, in that order. */
  lemma LoadXmlFileChain()
    ensures Child(Commands, "load").Some?
    ensures var load := Child(Commands, "load").value;
            !load.arg && load.nodes.Present? && |load.nodes.entries| > 0
            && Child(load.nodes.entries, "xml").Some?
            && var xml := Child(load.nodes.entries, "xml").value;
               !xml.arg && xml.nodes.Present? && |xml.nodes.entries| > 0
               && Child(xml.nodes.entries, "file").Some?
               && var file := Child(xml.nodes.entries, "file").value;
                  !file.arg && file.nodes.Present?
                  && |file.nodes.entries| == 2
                  && file.nodes.entries[0].word == "path" && file.nodes.entries[0].node.arg
                  && file.nodes.entries[1].word == "force" && file.nodes.entries[1].node.arg
  {
  }

  /** Argument entries are leaves, in the whole tree. */
  lemma ArgumentsAreLeaves()
    ensures forall i :: 0 <= i < |Commands| ==> WellFormed(Commands[i].node)
  {
    var args := ArgumentLevel();
    assert WellFormed(args[0].node) && WellFormed(args[1].node);
    var file := FileLevel()[0].node;
    assert WellFormed(file);
    var xml := XmlLevel()[0].node;
    assert WellFormed(xml);
  }

  /** One line of help: a word that may come next, its text, and whether it
      is an argument. */
  datatype HelpNode = HelpNode(option: string, text: string, isArgument: bool)

  /** `new HelpNode(option, text, isArgument?)`: `isArgument` defaults to
      false. The constructor has no parameter for a type tag, so a fourth
      argument is dropped. */
  function NewHelpNode(option: string, text: string, isArgument: bool := false): (h: HelpNode)
    ensures h.option == option && h.text == text && h.isArgument == isArgument
  {
    HelpNode(option, text, isArgument)
  }

  lemma HelpNodeDefaultsToNotArgument(option: string, text: string)
    ensures !NewHelpNode(option, text).isArgument
  {
  }
}
