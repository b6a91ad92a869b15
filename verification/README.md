# mongocli reStructuredText reference pages, in Dafny

This project models `internal/docs/rest/rest.go` of mongocli. That package
turns a cobra command tree into reference documentation, one
reStructuredText page per command, and proves properties of the model.

- `Text` holds the string helpers the renderer takes from Go's `strings`
  package: `ReplaceAll` (single characters and `[flags]`) and `Repeat`.
- `Indentation` holds `indentString`. It is the source's loop over the
  input, with a beginning-of-line flag. It is proved against the function
  `Indented`, which puts the prefix in front of every non-empty line.
- `Commands` is the part of a cobra command the renderer reads, as plain
  data. A command's path is computed from its ancestors, root first, as
  cobra's `CommandPath` does.
- `ByName` holds the `byName` order, Go's `<` on strings, and the in-place
  `sort.Sort` over an array of commands, using `Less` and `Swap`.
- `Render` holds `GenCustom`, `hasSeeAlso`, `printOptionsReST` and
  `defaultLinkHandler`. `Page` states the whole page as a function of the
  command, its ancestors, the link handler, the date and the order the sort
  left the children in. `GenCustom` builds the same text in a buffer, section
  by section, and also returns the command as it updates it: children sorted,
  `DisableAutoGenTag` taken from the ancestors.
- `Walk` holds `GenTreeCustom` and `GenTree`. `PostOrder` is the order in
  which pages are written: the trees of the eligible children in the order
  cobra lists them, then the command itself. `WalkMatches` says which files
  are opened, under which names, and which error ends the walk.
  `PagesRendered` says what each completed file holds.

The code is followed where it and a plain reading of its purpose differ:

- The `=` rules are as long as `len(name)`, which counts UTF-8 bytes, not
  characters. For an ASCII path the two agree (`Render.TitleBlockShape`).
- Rendering changes the command: `GenCustom` sorts the children in place.
  When a parent exists, it also copies a set `DisableAutoGenTag` from any
  ancestor onto the command.
- The Inherited Options heading is underlined with 38 `~`, which is not its
  length. The model keeps that string as written.
- `defaultLinkHandler` points at `<path with '_'>.txt`, while `GenTreeCustom`
  writes `<path with '-'>.txt`. These match only for a path without spaces
  (`Walk.DefaultLinkTarget`).

## Model

| member | source | states |
|---|---|---|
| Indentation.IndentString | internal/docs/rest/rest.go:202-215 | the loop's result is `Indented(s, p)`: `p` in front of every non-empty line of `s` |
| Indentation.IndentedStep | internal/docs/rest/rest.go:207-213 | reading one more character appends `p` exactly when that character begins a non-empty line, then the character itself |
| Indentation.IndentFromAppend | internal/docs/rest/rest.go:206-213 | indenting a concatenation is indenting each part, with the beginning-of-line flag carried over from the first |
| Indentation.IndentedLength | internal/docs/rest/rest.go:202-215 | the result is as long as the input plus one copy of `p` per non-empty line |
| Indentation.UnindentIndent | internal/docs/rest/rest.go:202-215 | round trip: stripping `p` from the start of every non-empty line gives back the input, for any `p` not starting with a newline |
| Render.ParseDefaultLinkRoundTrip | internal/docs/rest/rest.go:197-199 | a default link `` `name <ref.txt>`_ `` reads back as its name and reference, for any name without `<` |
| Render.Utf8Length | internal/docs/rest/rest.go:84-86 | `len` of a string counts between one and four bytes per character |
| Render.Utf8LengthAscii | internal/docs/rest/rest.go:84-86 | for an ASCII string the byte length is the character length |
| Render.TitleBlockShape | internal/docs/rest/rest.go:81-86 | the anchor label is the path with every space turned into `_` and no space left; both rules are `=` only and `len(path)` bytes long |
| Render.PageStartsWithTitle | internal/docs/rest/rest.go:83-86 | every page begins with `.. _` and the whole title block of its command path |
| Render.SynopsisFallback | internal/docs/rest/rest.go:74-88 | short description, blank line, then the long description, or the short one again when the long one is empty |
| Render.RewriteLeavesNoFlags | internal/docs/rest/rest.go:91 | after the `[flags]` to `[options]` rewrite, no `[flags]` is left anywhere in the use line |
| Render.UsageBlockShape | internal/docs/rest/rest.go:90-92 | the usage code block is present iff the command is runnable; the first `[flags]` is rewritten in place; none is left; a use line without `[flags]` is shown unchanged |
| Render.WriteUsage | internal/docs/rest/rest.go:90-92 | appends exactly the usage block to the buffer |
| Render.OptionsTableShape | internal/docs/rest/rest.go:161-194 | each options table is present iff its own flag set has a displayable flag; it starts with its heading and table header, ends in a newline, and its rows unindent to the `FlagUsages` text |
| Render.PrintFlagTable | internal/docs/rest/rest.go:163-176 | appends exactly one table, or nothing when no flag is displayable |
| Render.PrintOptionsReST | internal/docs/rest/rest.go:161-194 | appends the Options table, then the Inherited Options table, each under its own condition |
| Render.ExamplesSectionShape | internal/docs/rest/rest.go:98-102 | the Examples section is present iff the example is non-empty; its code block unindents to the example text |
| Render.WriteExamples | internal/docs/rest/rest.go:98-102 | appends exactly the Examples section |
| Render.HasSeeAlso | internal/docs/rest/rest.go:142-153 | true iff the command has a parent or an available child that is not a help topic |
| Render.EligibleOnlyMembers | internal/docs/rest/rest.go:122-125 | a command is listed iff it is a child and eligible |
| Render.EligibleOnlySorted | internal/docs/rest/rest.go:119-129 | skipping ineligible children keeps the listing sorted |
| Render.ListedChildren | internal/docs/rest/rest.go:119-129 | whatever order the sort leaves, the listed children are exactly the eligible ones, once per occurrence, in non-decreasing name order |
| Render.ShowsSeeAlsoIff | internal/docs/rest/rest.go:142-153 | a command shows See Also iff it has a parent or its list of eligible children is not empty |
| Render.SeeAlsoPresence | internal/docs/rest/rest.go:104-131 | See Also is present iff there is a parent or an eligible child; it starts with its heading and then the parent's line, and ends with a newline |
| Render.WriteChildEntries | internal/docs/rest/rest.go:122-129 | appends one `* <link> \t - <short>` line per eligible child, in the given order, linking to `path child` |
| Render.WriteSeeAlso | internal/docs/rest/rest.go:104-131 | appends the See Also section; returns the ancestors' `DisableAutoGenTag` and the children sorted by name as a permutation, or unchanged when there is no section |
| Render.VisitParentsDisable | internal/docs/rest/rest.go:112-116 | the flag ends up set iff it was set or some ancestor sets it; a set flag is never cleared |
| Render.FooterShape | internal/docs/rest/rest.go:132-134 | the dated footer is present iff neither the command nor any ancestor disables it, and then it is the page's last line |
| Render.WriteFooter | internal/docs/rest/rest.go:132-134 | appends the footer with the date, or nothing when disabled |
| Render.WriteHeading | internal/docs/rest/rest.go:76-88 | writes the title block and the two descriptions to a fresh buffer |
| Render.GenCustom | internal/docs/rest/rest.go:69-137 | writes `Page` with the children in the order the sort left them, or nothing when the write fails; the command gets the ancestors' `DisableAutoGenTag` and children that are a permutation, sorted when See Also is shown |
| ByName.NameLessIrreflexive | internal/docs/rest/rest.go:159 | no name is less than itself |
| ByName.NameLessTransitive | internal/docs/rest/rest.go:159 | the name order is transitive |
| ByName.NameLessTotal | internal/docs/rest/rest.go:159 | of two different names, one is less than the other |
| ByName.NameLessAsymmetric | internal/docs/rest/rest.go:159 | two names are never less than each other both ways |
| ByName.NameLeqTransitive | internal/docs/rest/rest.go:159 | "not after" is transitive, so sortedness is a total preorder |
| ByName.Swap | internal/docs/rest/rest.go:158 | exchanges the two entries, leaves the others alone, and keeps the multiset |
| ByName.InsertAt | internal/docs/rest/rest.go:120 | one insertion step extends the sorted prefix by one entry and keeps the multiset |
| ByName.SortByName | internal/docs/rest/rest.go:120 | `sort.Sort(byName(children))` leaves the array sorted by name and a permutation of what it held |
| Commands.ChildPath | internal/docs/rest/rest.go:126 | a child's link name `name + " " + child.Name()` is the child's own command path |
| Commands.ParentPathOfChild | internal/docs/rest/rest.go:107-109 | the parent's `CommandPath` is the path made of the ancestors |
| Walk.BaseNameShape | internal/docs/rest/rest.go:50 | the base name is the command path with every space turned into `-`, plus `.txt`, and has no space |
| Walk.JoinPathShape | internal/docs/rest/rest.go:51 | the file name ends with the base name, after the directory and a `/` |
| Walk.DefaultLinkTarget | internal/docs/rest/rest.go:50 | the default link target `ref.txt` equals the page's base name iff the command path has no space |
| Walk.PostOrderNodes | internal/docs/rest/rest.go:41-48 | the walk's last page is the command itself; every earlier one is a proper descendant reached by `children` edges through eligible commands only, so no page lies under an unavailable or help-topic child |
| Walk.ChildWalksNodes | internal/docs/rest/rest.go:41-48 | every page in the walks of the children is reached from the command by `children` edges, each command on the way (the page's own included) eligible |
| Walk.ChildWalksGrow | internal/docs/rest/rest.go:41-48 | the walks of more children extend the walks of fewer |
| Walk.PostOrderAfter | internal/docs/rest/rest.go:41-48 | the walks of the first children are a prefix of the command's walk |
| Walk.SubtreeBeforeParent | internal/docs/rest/rest.go:41-48 | each eligible child's whole walk is one block of the parent's walk, ending before the parent's page |
| Walk.WalkThen | internal/docs/rest/rest.go:41-48 | a successful walk followed by another is the walk of the two plans together |
| Walk.WalkStops | internal/docs/rest/rest.go:45-47 | a walk that failed ignores any pages planned after it |
| Walk.WalkLength | internal/docs/rest/rest.go:40-65 | one opened file per page on success, and never more files than pages |
| Walk.WalkSucceeds | internal/docs/rest/rest.go:40-65 | the walk succeeds iff no operation fails on any page; then file `k` is named after page `k` |
| Walk.AllPagesRendered | internal/docs/rest/rest.go:52-63 | on success every file holds the prefix and a rendering of its page |
| Walk.WalkFailsAtFirstFault | internal/docs/rest/rest.go:40-65 | a failed walk ends at the first page where an operation fails, with the first failing operation's error; earlier pages have their files, and the failing page's file holds what was written before |
| Walk.GenTreeCustom | internal/docs/rest/rest.go:40-65 | the files written and the error returned match the post-order walk; every completed file is a rendered page |
| Walk.GenChildTree | internal/docs/rest/rest.go:41-48 | one turn of the loop skips an ineligible child, or walks the child's tree and returns at once on its error |
| Walk.ChildWalked | internal/docs/rest/rest.go:45-47 | a child's walk extends the walk so far; when it fails, the command's whole walk has failed |
| Walk.OwnPageLast | internal/docs/rest/rest.go:50-64 | after all children, the command's own page completes its walk |
| Walk.GenPage | internal/docs/rest/rest.go:50-64 | creates the file, writes the prefix, then the page; stops with the first operation that fails |
| Walk.CompletedPage | internal/docs/rest/rest.go:58-64 | a page on which nothing fails is written under its name with its rendering |
| Walk.GenTree | internal/docs/rest/rest.go:33-36 | the walk from any command, root or not, with an empty prefix and the default links |
| Walk.GenTreePagesStartWithTitle | internal/docs/rest/rest.go:33-36 | with the empty prefix, every completed file begins with its command's anchor and title block |

## Left out

- File system: `os.Create`, `io.WriteString` and `buf.WriteTo` are not
  performed. The walk returns the files it opened and what each received.
  Which operation fails on which file is a parameter,
  `fault(filename, step)`.
- Partial writes: a failing write is modelled as writing nothing, although
  Go's writers may write part of the text before failing.
- The list of files is a log of the files the walk opens, not the files left
  on disk. Two commands whose paths differ only by `-` against a space, such
  as `app a-b` and `app a b`, both get `app-a-b.txt`; the second `os.Create`
  truncates the first file, which the log does not show.
- `f.Close` is not modelled. Errors from the deferred close are ignored by
  the source too.
- `filepath.Join` is modelled for a base name without separators. It joins
  with one `/` and does not apply `filepath.Clean` to the directory (`..`,
  repeated separators).
- `time.Now().Format("2-Jan-2006")`: the date is a parameter of the
  renderer and the walk.
- cobra: the command tree, `Commands()`, `Runnable()`, `UseLine()`,
  `IsAvailableCommand()`, `IsAdditionalHelpTopicCommand()` and the flag sets
  are fields of a plain `Command` value, holding what cobra reports. Their
  values after `InitDefaultHelpCmd` and `InitDefaultHelpFlag` are assumed.
  Those two calls are not modelled. cobra never counts its default help
  command as available, so it is never listed.
- `FlagUsages`: the rows of a flag table are an opaque string per flag set.
- Tree mutation: `GenCustom` returns the updated command instead of
  changing a shared tree. The walk does not write those updates back into
  the tree. No later page reads them: each page reads its own children's
  short descriptions, and a parent's page is rendered after its children's
  pages.
- `Render.GenCustom`: the page is specified up to the order of children with
  equal names. `sort.Sort` is not stable, and Go does not define the order it
  leaves equal elements in. The contract says only "sorted by name and a
  permutation".
- `Render.Utf8Length`: strings are sequences of Unicode code points. Go
  strings holding invalid UTF-8 are not modelled.
