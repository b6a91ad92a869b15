/** What the renderer and the tree walk read from a cobra command, as plain data.
    The command tree itself, the flag sets and everything cobra computes from
    them belong to cobra; here they are fields holding the values that cobra
    would report once the default help command and help flag are in place. */
module Commands {

  /** A pflag flag set as the page sees it: whether any of its flags is
      displayable (`HasAvailableFlags`) and the table rows that `FlagUsages`
      formats for it, kept as an opaque string. */
  datatype FlagSet = FlagSet(hasAvailableFlags: bool, usages: string)

  datatype Command = Command(
    name: string,              // Name()
    short: string,             // Short
    long: string,              // Long
    example: string,           // Example
    runnable: bool,            // Runnable()
    useLine: string,           // UseLine()
    available: bool,           // IsAvailableCommand()
    helpTopic: bool,           // IsAdditionalHelpTopicCommand()
    disableAutoGenTag: bool,   // DisableAutoGenTag
    localFlags: FlagSet,       // NonInheritedFlags()
    inheritedFlags: FlagSet,   // InheritedFlags()
    children: seq<Command>)    // Commands(), in the order cobra enumerates them

  /** A child that gets a page and a See Also entry. */
  predicate Eligible(c: Command)
  {
    c.available && !c.helpTopic
  }

  /** Words joined by single spaces. */
  function JoinWords(ws: seq<string>): string
  {
    if |ws| == 0 then ""
    else if |ws| == 1 then ws[0]
    else JoinWords(ws[..|ws| - 1]) + " " + ws[|ws| - 1]
  }

  function Names(cs: seq<Command>): (ns: seq<string>)
    ensures |ns| == |cs| && forall i :: 0 <= i < |cs| ==> ns[i] == cs[i].name
  {
    if cs == [] then [] else Names(cs[..|cs| - 1]) + [cs[|cs| - 1].name]
  }

  /** cobra's `CommandPath()` of `c`, whose ancestors (root first) are `ancestors`. */
  function CommandPath(ancestors: seq<Command>, c: Command): string
  {
    JoinWords(Names(ancestors) + [c.name])
  }

  /** The path of the parent of a command with these ancestors. */
  function ParentPath(ancestors: seq<Command>): string
    requires ancestors != []
  {
    CommandPath(ancestors[..|ancestors| - 1], ancestors[|ancestors| - 1])
  }

  /** A child's path is its parent's path, a space and the child's name: the name
      under which the parent's See Also links to it is the path of the child's page. */
  lemma ChildPath(ancestors: seq<Command>, c: Command, child: Command)
    ensures CommandPath(ancestors + [c], child) == CommandPath(ancestors, c) + " " + child.name
  {
    var ws := Names(ancestors + [c]) + [child.name];
    assert ws[..|ws| - 1] == Names(ancestors) + [c.name];
  }

  /** The parent's path is the path of the ancestors, as cobra's `Parent().CommandPath()`. */
  lemma ParentPathOfChild(ancestors: seq<Command>, c: Command)
    ensures ParentPath(ancestors + [c]) == CommandPath(ancestors, c)
  {
    assert (ancestors + [c])[..|ancestors|] == ancestors;
  }
}
