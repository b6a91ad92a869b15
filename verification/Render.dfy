/** The page renderer of rest.go: one reStructuredText page per command
    (`GenCustom`, with `hasSeeAlso`, `printOptionsReST` and `defaultLinkHandler`).
    `Page` states the whole page as a function of the command, its ancestors, the
    link handler, the date and the order in which the children were sorted;
    `GenCustom` builds the same text step by step, as the source does. */
module Render {
  import opened Text
  import opened Indentation
  import opened Commands
  import opened ByName

  /** `linkHandler(name, ref)`: formats a cross-reference. */
  type LinkHandler = (string, string) -> string

  // ---------------------------------------------------------------- links

  /** `defaultLinkHandler`: `` `name <ref.txt>`_ ``. */
  function DefaultLinkHandler(name: string, ref: string): string
  {
    "`" + name + " <" + ref + ".txt>`_"
  }

  const LinkTail := ".txt>`_"

  /** Index of the first `c` in `t`, or `|t|` when there is none. */
  function FirstIndexOf(t: string, c: char): (k: nat)
    ensures k <= |t|
    ensures forall j :: 0 <= j < k ==> t[j] != c
    ensures k < |t| ==> t[k] == c
  {
    if t == [] then 0
    else if t[0] == c then 0
    else 1 + FirstIndexOf(t[1..], c)
  }

  /** Reads a default link back into its name and reference. */
  function ParseDefaultLink(t: string): Option<(string, string)>
  {
    var k := FirstIndexOf(t, '<');
    if 2 <= k && k + 1 + |LinkTail| <= |t| && t[0] == '`' && t[k - 1] == ' '
       && t[|t| - |LinkTail|..] == LinkTail
    then Some((t[1..k - 1], t[k + 1..|t| - |LinkTail|]))
    else None
  }

  /** Round trip: a default link gives back the name and reference it was made
      from, whenever the name has no `<` in it. */
  lemma ParseDefaultLinkRoundTrip(name: string, ref: string)
    requires '<' !in name
    ensures ParseDefaultLink(DefaultLinkHandler(name, ref)) == Some((name, ref))
  {
    var t := DefaultLinkHandler(name, ref);
    var k := |name| + 2;
    assert t[k] == '<';
    forall j | 0 <= j < k ensures t[j] != '<' {
      if 1 <= j <= |name| {
        assert t[j] == name[j - 1];
      }
    }
    assert FirstIndexOf(t, '<') == k;
    assert t[1..k - 1] == name;
    assert t[k + 1..|t| - |LinkTail|] == ref;
    assert t[|t| - |LinkTail|..] == LinkTail;
  }

  // ---------------------------------------------------------------- title

  /** Go's `len` of a string: the number of bytes of its UTF-8 encoding. */
  function Utf8Length(s: string): (n: nat)
    ensures |s| <= n <= 4 * |s|
  {
    if s == [] then 0
    else
      var c := s[0] as int;
      (if c < 0x80 then 1 else if c < 0x800 then 2 else if c < 0x10000 then 3 else 4) + Utf8Length(s[1..])
  }

  lemma {:induction false} Utf8LengthAscii(s: string)
    requires forall i :: 0 <= i < |s| ==> s[i] as int < 0x80
    ensures Utf8Length(s) == |s|
  {
    if s != [] {
      Utf8LengthAscii(s[1..]);
    }
  }

  /** The anchor label: the command path with its spaces turned into `_`. */
  function Ref(path: string): string
  {
    ReplaceChar(path, ' ', '_')
  }

  /** The `=` rule above and below the title, as long as the title is in bytes. */
  function Rule(path: string): string
  {
    Repeat('=', Utf8Length(path))
  }

  function TitleBlock(path: string): string
  {
    (".. _" + Ref(path) + ":\n\n") + (Rule(path) + "\n") + (path + "\n") + (Rule(path) + "\n\n")
  }

  /** The title block starts with the anchor `.. _<ref>:`, whose label is the
      path with every space turned into `_`; both rules are made of `=` only and
      are exactly `len(path)` long, which is the path's length for an ASCII path. */
  lemma TitleBlockShape(path: string)
    ensures |Ref(path)| == |path| && ' ' !in Ref(path)
    ensures forall i :: 0 <= i < |path| && path[i] != ' ' ==> Ref(path)[i] == path[i]
    ensures |Rule(path)| == Utf8Length(path) && forall i :: 0 <= i < |Rule(path)| ==> Rule(path)[i] == '='
    ensures (forall i :: 0 <= i < |path| ==> path[i] as int < 0x80) ==> |Rule(path)| == |path|
  {
    ReplaceCharRemoves(path, ' ', '_');
    if forall i :: 0 <= i < |path| ==> path[i] as int < 0x80 {
      Utf8LengthAscii(path);
    }
  }

  // ---------------------------------------------------------------- description and usage

  /** `Long`, or `Short` when `Long` is empty. */
  function LongText(cmd: Command): string
  {
    if cmd.long == "" then cmd.short else cmd.long
  }

  function Synopsis(cmd: Command): string
  {
    (cmd.short + "\n") + ("\n" + LongText(cmd) + "\n\n")
  }

  /** The long-description fallback: the page repeats the short description
      where the long one would be whenever the long one is empty. */
  lemma SynopsisFallback(cmd: Command)
    ensures cmd.long == "" ==> Synopsis(cmd) == cmd.short + "\n\n" + cmd.short + "\n\n"
    ensures cmd.long != "" ==> Synopsis(cmd) == cmd.short + "\n\n" + cmd.long + "\n\n"
  {
  }

  const FlagsToken := "[flags]"
  const OptionsToken := "[options]"

  function UsageLine(cmd: Command): string
  {
    ReplaceAll(cmd.useLine, FlagsToken, OptionsToken)
  }

  function UsageBlock(cmd: Command): string
  {
    if cmd.runnable then ".. code-block::\n\n   " + UsageLine(cmd) + "\n\n" else ""
  }

  /** Every character that starts a kept run of the rewritten text up to the
      first `[` was in the use line already. */
  lemma {:induction false} RewriteKeepsPrefix(s: string, j: nat)
    requires j <= |ReplaceAll(s, FlagsToken, OptionsToken)|
    requires forall m :: 0 <= m < j ==> ReplaceAll(s, FlagsToken, OptionsToken)[m] != '['
    ensures j <= |s| && ReplaceAll(s, FlagsToken, OptionsToken)[..j] == s[..j]
    decreases |s|
  {
    var r := ReplaceAll(s, FlagsToken, OptionsToken);
    if |s| < |FlagsToken| {
    } else if s[..|FlagsToken|] == FlagsToken {
      assert r[0] == '[';
    } else if j > 0 {
      var r' := ReplaceAll(s[1..], FlagsToken, OptionsToken);
      assert r == [s[0]] + r';
      forall m | 0 <= m < j - 1 ensures r'[m] != '[' {
        assert r'[m] == r[m + 1];
      }
      RewriteKeepsPrefix(s[1..], j - 1);
      assert r[..j] == [s[0]] + r'[..j - 1];
      assert s[..j] == [s[0]] + s[1..][..j - 1];
    }
  }

  /** No `[flags]` starts inside a rewritten `[options]`. */
  lemma NoFlagsInsideOptions(t: string)
    ensures forall i :: 0 <= i < |OptionsToken| ==> !OccursAt(OptionsToken + t, FlagsToken, i)
  {
    var r := OptionsToken + t;
    forall i | 0 <= i < |OptionsToken|
      ensures !OccursAt(r, FlagsToken, i)
    {
      if i + |FlagsToken| <= |r| {
        if i == 0 {
          assert r[i..i + |FlagsToken|][1] == 'o';
        } else {
          assert r[i..i + |FlagsToken|][0] == OptionsToken[i] != '[';
        }
      }
    }
  }

  /** Text without `[flags]`, preceded by a rewritten `[options]`, still has none. */
  lemma NoFlagsAfterOptions(t: string)
    requires !Contains(t, FlagsToken)
    ensures !Contains(OptionsToken + t, FlagsToken)
  {
    var r := OptionsToken + t;
    NoFlagsInsideOptions(t);
    forall i | |OptionsToken| <= i && i + |FlagsToken| <= |r|
      ensures !OccursAt(r, FlagsToken, i)
    {
      assert r[i..i + |FlagsToken|] == t[i - |OptionsToken|..i - |OptionsToken| + |FlagsToken|];
      assert !OccursAt(t, FlagsToken, i - |OptionsToken|);
    }
  }

  /** If a kept first character and the rewritten rest spell `[flags]`, the
      original text started with `[flags]`. */
  lemma FlagsFromKept(s: string)
    requires |s| >= 1
    requires OccursAt([s[0]] + ReplaceAll(s[1..], FlagsToken, OptionsToken), FlagsToken, 0)
    ensures OccursAt(s, FlagsToken, 0)
  {
    var r' := ReplaceAll(s[1..], FlagsToken, OptionsToken);
    var r := [s[0]] + r';
    var n := |FlagsToken| - 1;
    assert r[..|FlagsToken|] == FlagsToken;
    forall m | 0 <= m < n ensures r'[m] != '[' {
      assert r'[m] == r[m + 1] == FlagsToken[m + 1];
    }
    RewriteKeepsPrefix(s[1..], n);
    assert s[1..][..n] == r'[..n] == FlagsToken[1..];
    assert s[..|FlagsToken|] == [s[0]] + s[1..][..n];
  }

  /** A kept first character cannot complete a `[flags]` with what follows it. */
  lemma NoFlagsAfterKept(s: string)
    requires |s| >= |FlagsToken| && s[..|FlagsToken|] != FlagsToken
    requires !Contains(ReplaceAll(s[1..], FlagsToken, OptionsToken), FlagsToken)
    ensures !Contains([s[0]] + ReplaceAll(s[1..], FlagsToken, OptionsToken), FlagsToken)
  {
    var r' := ReplaceAll(s[1..], FlagsToken, OptionsToken);
    var r := [s[0]] + r';
    forall i | 1 <= i && i + |FlagsToken| <= |r|
      ensures !OccursAt(r, FlagsToken, i)
    {
      assert r[i..i + |FlagsToken|] == r'[i - 1..i - 1 + |FlagsToken|];
      assert !OccursAt(r', FlagsToken, i - 1);
    }
    if OccursAt(r, FlagsToken, 0) {
      FlagsFromKept(s);
      assert false;
    }
  }

  /** After the rewrite no `[flags]` is left anywhere in the use line. */
  lemma {:induction false} RewriteLeavesNoFlags(s: string)
    ensures !Contains(ReplaceAll(s, FlagsToken, OptionsToken), FlagsToken)
    decreases |s|
  {
    if |s| < |FlagsToken| {
      var r := ReplaceAll(s, FlagsToken, OptionsToken);
      assert r == s;
      forall i | OccursAt(r, FlagsToken, i) ensures false {
      }
    } else if s[..|FlagsToken|] == FlagsToken {
      RewriteLeavesNoFlags(s[|FlagsToken|..]);
      NoFlagsAfterOptions(ReplaceAll(s[|FlagsToken|..], FlagsToken, OptionsToken));
    } else {
      RewriteLeavesNoFlags(s[1..]);
      NoFlagsAfterKept(s);
    }
  }

  /** The usage code block is there exactly for a runnable command; it shows the
      use line with `[flags]` rewritten to `[options]` in place, and no
      `[flags]` is left; a use line without `[flags]` is shown unchanged. */
  lemma UsageBlockShape(cmd: Command)
    ensures UsageBlock(cmd) != "" <==> cmd.runnable
    ensures cmd.runnable ==> UsageBlock(cmd) == ".. code-block::\n\n   " + UsageLine(cmd) + "\n\n"
    ensures !Contains(UsageLine(cmd), FlagsToken)
    ensures !Contains(cmd.useLine, FlagsToken) ==> UsageLine(cmd) == cmd.useLine
    ensures forall u, v :: '[' !in u && cmd.useLine == u + FlagsToken + v ==>
              UsageLine(cmd) == u + OptionsToken + ReplaceAll(v, FlagsToken, OptionsToken)
  {
    RewriteLeavesNoFlags(cmd.useLine);
    if !Contains(cmd.useLine, FlagsToken) {
      ReplaceAllAbsent(cmd.useLine, FlagsToken, OptionsToken);
    }
    forall u, v | '[' !in u && cmd.useLine == u + FlagsToken + v
      ensures UsageLine(cmd) == u + OptionsToken + ReplaceAll(v, FlagsToken, OptionsToken)
    {
      ReplaceAllAt(u, FlagsToken, OptionsToken, v);
    }
  }

  // ---------------------------------------------------------------- options

  const TableHeader := "   :header-rows: 1\n   :widths: 20 10 60 10\n\n   * - Option\n     - Type\n     - Description\n     - Required\n"

  const OptionsHeading := "Options\n" + "~~~~~~~\n\n.. list-table::\n"
  const InheritedHeading := "Inherited Options\n" + "~~~~~~~~~~~~~~~~~~~~~~~~~~~~~~~~~~~~~~\n\n.. list-table::\n"

  /** One list-table of flags, or nothing when the set has no displayable flag. */
  function OptionsTable(heading: string, flags: FlagSet): string
  {
    if flags.hasAvailableFlags then heading + TableHeader + Indented(flags.usages, " ") + "\n" else ""
  }

  function OptionsSections(cmd: Command): string
  {
    OptionsTable(OptionsHeading, cmd.localFlags) + OptionsTable(InheritedHeading, cmd.inheritedFlags)
  }

  /** Each table is present exactly when its own flag set has a displayable flag,
      independently of the other; its rows, with the one-space indent stripped,
      are the `FlagUsages` text unchanged. */
  lemma OptionsTableShape(heading: string, flags: FlagSet)
    ensures OptionsTable(heading, flags) != "" <==> flags.hasAvailableFlags
    ensures flags.hasAvailableFlags ==>
      var t := OptionsTable(heading, flags);
      var body := t[|heading + TableHeader|..|t| - 1];
      t[..|heading + TableHeader|] == heading + TableHeader && t[|t| - 1] == '\n'
      && Unindented(body, " ") == flags.usages
  {
    if flags.hasAvailableFlags {
      var t := OptionsTable(heading, flags);
      var ind := Indented(flags.usages, " ");
      assert t == (heading + TableHeader) + ind + "\n";
      assert t[|heading + TableHeader|..|t| - 1] == ind;
      UnindentIndent(flags.usages, " ");
    }
  }

  /** One of the two blocks of `printOptionsReST`: the heading lines, the table
      header and the flag rows indented by one space. */
  method PrintFlagTable(buf: string, title: string, underline: string, flags: FlagSet) returns (out: string)
    ensures out == buf + OptionsTable(title + underline, flags)
  {
    out := buf;
    if flags.hasAvailableFlags {
      out := out + title;
      out := out + underline;
      out := out + TableHeader;
      var rows := IndentString(flags.usages, " ");
      out := out + rows;
      out := out + "\n";
    }
  }

  /** `printOptionsReST`: appends the Options and Inherited Options tables to the
      buffer. The source returns an error value that is always nil. */
  method PrintOptionsReST(buf: string, cmd: Command) returns (out: string)
    ensures out == buf + OptionsSections(cmd)
  {
    var flags := cmd.localFlags;
    out := PrintFlagTable(buf, "Options\n", "~~~~~~~\n\n.. list-table::\n", flags);
    var parentFlags := cmd.inheritedFlags;
    out := PrintFlagTable(out, "Inherited Options\n", "~~~~~~~~~~~~~~~~~~~~~~~~~~~~~~~~~~~~~~\n\n.. list-table::\n", parentFlags);
  }

  // ---------------------------------------------------------------- examples

  const ExamplesHeading := "Examples\n" + "~~~~~~~~\n\n" + ".. code-block::\n"

  function ExamplesSection(cmd: Command): string
  {
    if |cmd.example| > 0 then ExamplesHeading + Indented(cmd.example, " ") + "\n\n" else ""
  }

  /** The Examples section is present exactly when the example text is not
      empty; its code block, with the one-space indent stripped, is the example
      text unchanged. */
  lemma ExamplesSectionShape(cmd: Command)
    ensures ExamplesSection(cmd) != "" <==> cmd.example != ""
    ensures cmd.example != "" ==>
      var t := ExamplesSection(cmd);
      t[..|ExamplesHeading|] == ExamplesHeading && t[|t| - 2..] == "\n\n"
      && Unindented(t[|ExamplesHeading|..|t| - 2], " ") == cmd.example
  {
    if cmd.example != "" {
      var t := ExamplesSection(cmd);
      var ind := Indented(cmd.example, " ");
      assert t == ExamplesHeading + ind + "\n\n";
      assert t[|ExamplesHeading|..|t| - 2] == ind;
      UnindentIndent(cmd.example, " ");
    }
  }

  // ---------------------------------------------------------------- see also

  /** `hasSeeAlso` as a property: a parent, or an eligible child. */
  predicate ShowsSeeAlso(ancestors: seq<Command>, cmd: Command)
  {
    |ancestors| > 0 || exists c :: c in cmd.children && Eligible(c)
  }

  /** `hasSeeAlso`: a loop over the children with an early return. */
  method HasSeeAlso(ancestors: seq<Command>, cmd: Command) returns (b: bool)
    ensures b == ShowsSeeAlso(ancestors, cmd)
  {
    if |ancestors| > 0 {
      return true;
    }
    var children := cmd.children;
    for i := 0 to |children|
      invariant forall j :: 0 <= j < i ==> !Eligible(children[j])
    {
      var c := children[i];
      if !c.available || c.helpTopic {
        continue;
      }
      assert c in cmd.children && Eligible(c);
      return true;
    }
    return false;
  }

  /** One See Also line: `* <link> \t - <short>`. */
  function SeeAlsoEntry(link: LinkHandler, path: string, short: string): string
  {
    "* " + link(path, Ref(path)) + " \t - " + short + "\n"
  }

  function ParentEntry(ancestors: seq<Command>, link: LinkHandler): string
  {
    if ancestors == [] then "" else SeeAlsoEntry(link, ParentPath(ancestors), ancestors[|ancestors| - 1].short)
  }

  /** The eligible commands of `cs`, in the order of `cs`. */
  function EligibleOnly(cs: seq<Command>): seq<Command>
  {
    if cs == [] then []
    else EligibleOnly(cs[..|cs| - 1]) + (if Eligible(cs[|cs| - 1]) then [cs[|cs| - 1]] else [])
  }

  /** The See Also lines of the children `cs` of the command at `path`. */
  function EntryLines(path: string, link: LinkHandler, cs: seq<Command>): string
  {
    if cs == [] then ""
    else EntryLines(path, link, cs[..|cs| - 1]) + SeeAlsoEntry(link, path + " " + cs[|cs| - 1].name, cs[|cs| - 1].short)
  }

  const SeeAlsoHeading := "See Also\n" + "~~~~~~~~\n\n"

  /** The See Also section for a command whose children were put in `order`. */
  function SeeAlsoSection(ancestors: seq<Command>, cmd: Command, link: LinkHandler, order: seq<Command>): string
  {
    if ShowsSeeAlso(ancestors, cmd) then
      SeeAlsoHeading + ParentEntry(ancestors, link)
      + EntryLines(CommandPath(ancestors, cmd), link, EligibleOnly(order)) + "\n"
    else ""
  }

  lemma {:induction false} EligibleOnlyCount(cs: seq<Command>, x: Command)
    ensures multiset(EligibleOnly(cs))[x] == if Eligible(x) then multiset(cs)[x] else 0
  {
    if cs != [] {
      var init, last := cs[..|cs| - 1], cs[|cs| - 1];
      EligibleOnlyCount(init, x);
      assert cs == init + [last];
    }
  }

  lemma EligibleOnlyMembers(cs: seq<Command>)
    ensures forall x :: x in EligibleOnly(cs) <==> x in cs && Eligible(x)
  {
    forall x ensures x in EligibleOnly(cs) <==> x in cs && Eligible(x) {
      EligibleOnlyCount(cs, x);
      assert x in EligibleOnly(cs) <==> multiset(EligibleOnly(cs))[x] > 0;
      assert x in cs <==> multiset(cs)[x] > 0;
    }
  }

  lemma {:induction false} EligibleOnlySorted(cs: seq<Command>)
    requires SortedByName(cs)
    ensures SortedByName(EligibleOnly(cs))
  {
    if cs != [] {
      var init, last := cs[..|cs| - 1], cs[|cs| - 1];
      assert SortedByName(init);
      EligibleOnlySorted(init);
      EligibleOnlyMembers(init);
      var e := EligibleOnly(init);
      forall i | 0 <= i < |e| ensures NameLeq(e[i].name, last.name) {
        assert e[i] in init;
        var k :| 0 <= k < |init| && init[k] == e[i];
        assert cs[k] == e[i];
      }
    }
  }

  /** Whatever order the sort leaves the children in, the listed children are
      exactly the eligible ones, each once per occurrence among the command's
      children, in non-decreasing name order. */
  lemma ListedChildren(cmd: Command, order: seq<Command>)
    requires SortedByName(order) && multiset(order) == multiset(cmd.children)
    ensures SortedByName(EligibleOnly(order))
    ensures multiset(EligibleOnly(order)) == multiset(EligibleOnly(cmd.children))
    ensures forall c :: c in EligibleOnly(order) ==> c in cmd.children && Eligible(c)
  {
    EligibleOnlySorted(order);
    forall x ensures multiset(EligibleOnly(order))[x] == multiset(EligibleOnly(cmd.children))[x] {
      EligibleOnlyCount(order, x);
      EligibleOnlyCount(cmd.children, x);
    }
    EligibleOnlyMembers(order);
    assert forall c :: c in order <==> c in multiset(order);
  }

  /** The See Also section is there exactly when the command has a parent or an
      eligible child; it then lists the parent first, then the children's lines,
      then a blank line. */
  lemma SeeAlsoPresence(ancestors: seq<Command>, cmd: Command, link: LinkHandler, order: seq<Command>)
    ensures SeeAlsoSection(ancestors, cmd, link, order) != "" <==> (ancestors != [] || EligibleOnly(cmd.children) != [])
    ensures ShowsSeeAlso(ancestors, cmd) ==>
      var t := SeeAlsoSection(ancestors, cmd, link, order);
      var parentLine := ParentEntry(ancestors, link);
      t[..|SeeAlsoHeading|] == SeeAlsoHeading
      && t[|SeeAlsoHeading|..|SeeAlsoHeading| + |parentLine|] == parentLine
      && t[|t| - 1] == '\n'
  {
    ShowsSeeAlsoIff(ancestors, cmd);
    if ShowsSeeAlso(ancestors, cmd) {
      var entries := EntryLines(CommandPath(ancestors, cmd), link, EligibleOnly(order));
      assert SeeAlsoSection(ancestors, cmd, link, order) == SeeAlsoHeading + ParentEntry(ancestors, link) + entries + "\n";
      SectionLayout(SeeAlsoHeading, ParentEntry(ancestors, link), entries);
    }
  }

  /** A command shows See Also exactly when it has a parent or its list of eligible children is not empty. */
  lemma ShowsSeeAlsoIff(ancestors: seq<Command>, cmd: Command)
    ensures ShowsSeeAlso(ancestors, cmd) <==> ancestors != [] || EligibleOnly(cmd.children) != []
  {
    EligibleOnlyMembers(cmd.children);
    if EligibleOnly(cmd.children) != [] {
      assert EligibleOnly(cmd.children)[0] in EligibleOnly(cmd.children);
    }
  }

  /** A heading, a first line and the rest, ended by a newline, begin with the
      heading and then the first line. */
  lemma SectionLayout(heading: string, first: string, rest: string)
    ensures var t := heading + first + rest + "\n";
      t[..|heading|] == heading && t[|heading|..|heading| + |first|] == first && t[|t| - 1] == '\n'
  {
    var t := heading + first + rest + "\n";
    assert t == heading + (first + (rest + "\n"));
  }

  // ---------------------------------------------------------------- footer

  /** `DisableAutoGenTag` after rendering: set when it was set already or when
      any ancestor has it set. */
  predicate AutoGenTagDisabled(ancestors: seq<Command>, cmd: Command)
  {
    cmd.disableAutoGenTag || exists a :: a in ancestors && a.disableAutoGenTag
  }

  function Footer(disabled: bool, date: string): string
  {
    if disabled then "" else "*Auto generated by MongoDB CLI on " + date + "*\n"
  }

  /** The `VisitParents` walk of GenCustom: visits the parent, then its parent and
      so on, and copies `DisableAutoGenTag` onto the command whenever the visited
      ancestor has it set. A set flag is never cleared. */
  method VisitParentsDisable(ancestors: seq<Command>, disable: bool) returns (d: bool)
    ensures d <==> disable || exists a :: a in ancestors && a.disableAutoGenTag
  {
    d := disable;
    var k := |ancestors|;
    while k > 0
      invariant 0 <= k <= |ancestors|
      invariant d <==> disable || exists j :: k <= j < |ancestors| && ancestors[j].disableAutoGenTag
    {
      k := k - 1;
      var c := ancestors[k];
      if c.disableAutoGenTag {
        d := c.disableAutoGenTag;
      }
    }
  }

  // ---------------------------------------------------------------- the page

  /** The whole page, in the source's fixed order of sections. */
  function Page(ancestors: seq<Command>, cmd: Command, link: LinkHandler, date: string, order: seq<Command>): string
  {
    var path := CommandPath(ancestors, cmd);
    TitleBlock(path) + Synopsis(cmd) + UsageBlock(cmd) + OptionsSections(cmd) + ExamplesSection(cmd)
    + SeeAlsoSection(ancestors, cmd, link, order) + Footer(AutoGenTagDisabled(ancestors, cmd), date)
  }

  /** The footer is on the page exactly when neither the command nor any ancestor
      disables the tag, and then it is the last line and carries the date. */
  lemma FooterShape(ancestors: seq<Command>, cmd: Command, link: LinkHandler, date: string, order: seq<Command>)
    ensures var page := Page(ancestors, cmd, link, date, order);
      var line := "*Auto generated by MongoDB CLI on " + date + "*\n";
      (!cmd.disableAutoGenTag && (forall a :: a in ancestors ==> !a.disableAutoGenTag)) ==>
        |line| <= |page| && page[|page| - |line|..] == line
    ensures Footer(AutoGenTagDisabled(ancestors, cmd), date) != ""
            <==> !cmd.disableAutoGenTag && forall a :: a in ancestors ==> !a.disableAutoGenTag
  {
  }

  /** The page begins with the anchor and title block of the command path. */
  lemma PageStartsWithTitle(ancestors: seq<Command>, cmd: Command, link: LinkHandler, date: string, order: seq<Command>)
    ensures var page := Page(ancestors, cmd, link, date, order);
      var title := TitleBlock(CommandPath(ancestors, cmd));
      |title| <= |page| && page[..|title|] == title && page[..4] == ".. _"
  {
    var path := CommandPath(ancestors, cmd);
    var title := TitleBlock(path);
    var s1, s2, s3, s4, s5, s6 := Synopsis(cmd), UsageBlock(cmd), OptionsSections(cmd), ExamplesSection(cmd),
      SeeAlsoSection(ancestors, cmd, link, order), Footer(AutoGenTagDisabled(ancestors, cmd), date);
    var rest := s1 + s2 + s3 + s4 + s5 + s6;
    Regroup6(title, s1, s2, s3, s4, s5, s6);
    Prefix(title, rest);
    TitleStartsWithAnchor(path);
  }

  lemma Prefix(a: string, b: string)
    ensures |a| <= |a + b| && (a + b)[..|a|] == a
  {
  }

  lemma TitleStartsWithAnchor(path: string)
    ensures |TitleBlock(path)| >= 4 && TitleBlock(path)[..4] == ".. _"
  {
  }

  /** `GenCustom`: builds the page in a buffer, step by step, and writes it out.
      `writeFails` stands for the writer's answer: when it fails nothing is
      written. Besides the text, the command is updated as in the source: its
      children are sorted by name when the See Also section is built, and
      `DisableAutoGenTag` takes the ancestors' value when one of them sets it. */
  method GenCustom(ancestors: seq<Command>, cmd: Command, link: LinkHandler, date: string, writeFails: bool)
    returns (written: Option<string>, updated: Command)
    ensures updated == cmd.(disableAutoGenTag := AutoGenTagDisabled(ancestors, cmd), children := updated.children)
    ensures multiset(updated.children) == multiset(cmd.children)
    ensures ShowsSeeAlso(ancestors, cmd) ==> SortedByName(updated.children)
    ensures !ShowsSeeAlso(ancestors, cmd) ==> updated.children == cmd.children
    ensures written == if writeFails then None else Some(Page(ancestors, cmd, link, date, updated.children))
  {
    var name := CommandPath(ancestors, cmd);
    var short := cmd.short;
    var long := cmd.long;
    if long == "" {
      long := short;
    }
    var ref := Ref(name);

    var buf := WriteHeading(name, ref, short, long);
    assert buf == TitleBlock(name) + Synopsis(cmd);

    buf := WriteUsage(buf, cmd);
    buf := PrintOptionsReST(buf, cmd);
    buf := WriteExamples(buf, cmd);
    var disable, children;
    buf, disable, children := WriteSeeAlso(buf, ancestors, cmd, link);
    buf := WriteFooter(buf, disable, date);
    updated := cmd.(disableAutoGenTag := disable, children := children);
    if writeFails {
      written := None;
    } else {
      written := Some(buf);
    }
  }

  /** The usage code block of a runnable command. */
  method WriteUsage(buf: string, cmd: Command) returns (out: string)
    ensures out == buf + UsageBlock(cmd)
  {
    out := buf;
    if cmd.runnable {
      out := out + (".. code-block::\n\n   " + ReplaceAll(cmd.useLine, FlagsToken, OptionsToken) + "\n\n");
    }
  }

  /** The Examples section, when there is an example. */
  method WriteExamples(buf: string, cmd: Command) returns (out: string)
    ensures out == buf + ExamplesSection(cmd)
  {
    out := buf;
    if |cmd.example| > 0 {
      var ex := IndentString(cmd.example, " ");
      out := out + "Examples\n";
      out := out + "~~~~~~~~\n\n";
      out := out + (".. code-block::\n" + ex + "\n\n");
      Regroup5(buf, "Examples\n", "~~~~~~~~\n\n", ".. code-block::\n", ex, "\n\n");
    }
  }

  /** The footer with the date, unless the tag is disabled. */
  method WriteFooter(buf: string, disable: bool, date: string) returns (out: string)
    ensures out == buf + Footer(disable, date)
  {
    out := buf;
    if !disable {
      out := out + ("*Auto generated by MongoDB CLI on " + date + "*\n");
    }
  }

  /** The anchor, the title between its two rules and the two descriptions,
      written to a fresh buffer. */
  method WriteHeading(name: string, ref: string, short: string, long: string) returns (buf: string)
    requires ref == Ref(name)
    ensures buf == TitleBlock(name) + ((short + "\n") + ("\n" + long + "\n\n"))
  {
    buf := "";
    buf := buf + (".. _" + ref + ":\n\n");
    buf := buf + (Repeat('=', Utf8Length(name)) + "\n");
    buf := buf + (name + "\n");
    buf := buf + (Repeat('=', Utf8Length(name)) + "\n\n");
    buf := buf + (short + "\n");
    buf := buf + ("\n" + long + "\n\n");
    Assoc(TitleBlock(name), short + "\n", "\n" + long + "\n\n");
  }

  /** The See Also block of GenCustom: the heading and the parent's line, the
      `VisitParents` walk, the sort of the children and their lines. Returns the
      new `DisableAutoGenTag` and the children in the order the sort left them. */
  method WriteSeeAlso(buf: string, ancestors: seq<Command>, cmd: Command, link: LinkHandler)
    returns (out: string, disable: bool, children: seq<Command>)
    ensures out == buf + SeeAlsoSection(ancestors, cmd, link, children)
    ensures disable == AutoGenTagDisabled(ancestors, cmd)
    ensures multiset(children) == multiset(cmd.children)
    ensures ShowsSeeAlso(ancestors, cmd) ==> SortedByName(children)
    ensures !ShowsSeeAlso(ancestors, cmd) ==> children == cmd.children
  {
    out := buf;
    disable := cmd.disableAutoGenTag;
    children := cmd.children;
    var see := HasSeeAlso(ancestors, cmd);
    if see {
      out := out + "See Also\n";
      out := out + "~~~~~~~~\n\n";
      Assoc(buf, "See Also\n", "~~~~~~~~\n\n");
      if |ancestors| > 0 {
        var parent := ancestors[|ancestors| - 1];
        var pname := CommandPath(ancestors[..|ancestors| - 1], parent);
        var ref := Ref(pname);
        out := out + ("* " + link(pname, ref) + " \t - " + parent.short + "\n");
        disable := VisitParentsDisable(ancestors, disable);
      }
      assert out == buf + SeeAlsoHeading + ParentEntry(ancestors, link);

      var a := new Command[|children|](i requires 0 <= i < |children| => children[i]);
      assert a[..] == children;
      SortByName(a);
      children := a[..];

      out := WriteChildEntries(out, CommandPath(ancestors, cmd), link, children);
      out := out + "\n";
      Regroup4(buf, SeeAlsoHeading, ParentEntry(ancestors, link),
        EntryLines(CommandPath(ancestors, cmd), link, EligibleOnly(children)), "\n");
    } else {
      assert forall a :: a in ancestors ==> false;
    }
  }

  /** The loop over the sorted children: one line for each eligible child, in order. */
  method WriteChildEntries(buf: string, name: string, link: LinkHandler, children: seq<Command>) returns (out: string)
    ensures out == buf + EntryLines(name, link, EligibleOnly(children))
  {
    out := buf;
    for i := 0 to |children|
      invariant out == buf + EntryLines(name, link, EligibleOnly(children[..i]))
    {
      ghost var listed := EligibleOnly(children[..i]);
      assert children[..i + 1] == children[..i] + [children[i]];
      assert children[..i + 1][..i] == children[..i];
      var child := children[i];
      if !child.available || child.helpTopic {
        assert EligibleOnly(children[..i + 1]) == listed;
        continue;
      }
      assert EligibleOnly(children[..i + 1]) == listed + [child];
      var cname := name + " " + child.name;
      var ref := Ref(cname);
      var entry := "* " + link(cname, ref) + " \t - " + child.short + "\n";
      assert EntryLines(name, link, listed + [child]) == EntryLines(name, link, listed) + entry;
      Assoc(buf, EntryLines(name, link, listed), entry);
      out := out + entry;
    }
    assert children[..|children|] == children;
  }

}
