/** The tree walk of rest.go: `GenTreeCustom` writes one page per eligible
    command, children before their parent, and stops at the first error;
    `GenTree` is the same walk with an empty prefix and the default links.

    The file system is modelled by its effect: the list of files the walk has
    opened, in the order it opened them, with the text each one received. Which
    operation fails on which file is an oracle `fault(filename, step)`; a failing
    write is taken to write nothing. */
module Walk {
  import opened Text
  import opened Commands
  import opened ByName
  import opened Render

  /** The three file operations of one page: `os.Create`, the write of the
      prefix and the write of the rendered page. */
  datatype Step = Create | WritePrepend | WriteBody

  /** The error the walk returns: the file and the operation that failed. */
  datatype IoError = IoError(path: string, step: Step)

  datatype Outcome = Success | Failure(error: IoError)

  datatype WrittenFile = WrittenFile(path: string, content: string)

  /** A command to document, with its ancestors, root first. */
  datatype Node = Node(ancestors: seq<Command>, cmd: Command)

  datatype Config = Config(
    dir: string,                       // the output directory
    prepender: string -> string,       // filePrepender
    link: LinkHandler,                 // linkHandler
    date: string,                      // the day the pages are generated
    fault: (string, Step) -> bool)     // whether that operation fails on that file

  // ---------------------------------------------------------------- file names

  /** The file name of a page: the command path with `-` for its spaces, and `.txt`. */
  function BaseName(ancestors: seq<Command>, cmd: Command): string
  {
    ReplaceChar(CommandPath(ancestors, cmd), ' ', '-') + ".txt"
  }

  /** `filepath.Join(dir, base)` for a base name without separators. */
  function JoinPath(dir: string, base: string): string
  {
    if dir == "" then base
    else if dir[|dir| - 1] == '/' then dir + base
    else dir + "/" + base
  }

  function FileName(cfg: Config, n: Node): string
  {
    JoinPath(cfg.dir, BaseName(n.ancestors, n.cmd))
  }

  /** The base name has no space, ends in `.txt`, and before that is the command
      path with every space turned into `-`. */
  lemma BaseNameShape(ancestors: seq<Command>, cmd: Command)
    ensures var path, base := CommandPath(ancestors, cmd), BaseName(ancestors, cmd);
      |base| == |path| + 4 && ' ' !in base && base[|path|..] == ".txt"
      && forall i :: 0 <= i < |path| ==> base[i] == (if path[i] == ' ' then '-' else path[i])
  {
    var path := CommandPath(ancestors, cmd);
    ReplaceCharRemoves(path, ' ', '-');
  }

  /** The page lands in the output directory under its base name. */
  lemma JoinPathShape(dir: string, base: string)
    ensures var p := JoinPath(dir, base);
      |base| <= |p| && p[|p| - |base|..] == base
      && (dir != "" ==> p[..|dir|] == dir && p[|p| - |base| - 1] == '/')
  {
  }

  /** The default link to a page points at `<path with '_'>.txt`, while the page
      itself is written to `<path with '-'>.txt`: the two agree exactly when the
      command path has no space; with cobra's names, which hold no space, that is
      the root's page alone. */
  lemma DefaultLinkTarget(ancestors: seq<Command>, cmd: Command)
    ensures var path := CommandPath(ancestors, cmd);
      Ref(path) + ".txt" == BaseName(ancestors, cmd) <==> ' ' !in path
  {
    var path := CommandPath(ancestors, cmd);
    var r, b := Ref(path), ReplaceChar(path, ' ', '-');
    if ' ' in path {
      var i :| 0 <= i < |path| && path[i] == ' ';
      assert (r + ".txt")[i] == '_' && BaseName(ancestors, cmd)[i] == '-';
    } else {
      assert r == path && b == path;
    }
  }

  // ---------------------------------------------------------------- the order of the walk

  /** The pages the walk writes for `cmd` and its descendants, in the order it
      writes them: the walk of each eligible child in turn, then `cmd` itself. */
  function PostOrder(ancestors: seq<Command>, cmd: Command): seq<Node>
    decreases cmd, 1
  {
    ChildWalks(ancestors, cmd, |cmd.children|) + [Node(ancestors, cmd)]
  }

  /** The walks of the first `i` children of `cmd`; ineligible ones are skipped. */
  function ChildWalks(ancestors: seq<Command>, cmd: Command, i: nat): seq<Node>
    requires i <= |cmd.children|
    decreases cmd, 0, i
  {
    if i == 0 then []
    else
      var c := cmd.children[i - 1];
      ChildWalks(ancestors, cmd, i - 1) + (if Eligible(c) then PostOrder(ancestors + [cmd], c) else [])
  }

  /** `anc` is a prefix of `longer`. */
  predicate Extends(longer: seq<Command>, anc: seq<Command>)
  {
    |anc| <= |longer| && longer[..|anc|] == anc
  }

  lemma ExtendsTransitive(a: seq<Command>, b: seq<Command>, c: seq<Command>)
    requires Extends(a, b) && Extends(b, c)
    ensures Extends(a, c)
  {
    assert a[..|c|] == a[..|b|][..|c|];
  }

  /** `n` is reached from the last command of `top` by a chain of `children`
      edges that only passes through eligible commands: every command on the way
      down, `n.cmd` included, is an eligible child of the one above it. */
  ghost predicate Below(top: seq<Command>, n: Node)
  {
    var chain := n.ancestors + [n.cmd];
    && 0 < |top|
    && Extends(n.ancestors, top)
    && forall j :: |top| <= j < |chain| ==> chain[j] in chain[j - 1].children && Eligible(chain[j])
  }

  /** A page below an eligible child `c` of the last command of `top` is below `top`. */
  lemma BelowChild(top: seq<Command>, c: Command, n: Node)
    requires 0 < |top| && c in top[|top| - 1].children && Eligible(c)
    requires Below(top + [c], n)
    ensures Below(top, n)
  {
    var chain := n.ancestors + [n.cmd];
    ExtendsTransitive(n.ancestors, top + [c], top);
    assert n.ancestors[..|top| + 1] == top + [c];
    assert chain[|top|] == c && chain[|top| - 1] == top[|top| - 1];
  }

  /** The page of an eligible child `c` of the last command of `top` is below `top`. */
  lemma BelowOwnPage(top: seq<Command>, c: Command)
    requires 0 < |top| && c in top[|top| - 1].children && Eligible(c)
    ensures Below(top, Node(top, c))
  {
    assert (top + [c])[|top| - 1] == top[|top| - 1];
  }

  /** Every page of the walk but the last is for a proper descendant of `cmd`
      reached through eligible children only: a child that is unavailable or a
      help topic is never entered. The last page is `cmd`'s own. */
  lemma {:induction false} PostOrderNodes(ancestors: seq<Command>, cmd: Command)
    ensures var p := PostOrder(ancestors, cmd);
      p[|p| - 1] == Node(ancestors, cmd)
      && forall k :: 0 <= k < |p| - 1 ==> Below(ancestors + [cmd], p[k])
    decreases cmd, 1
  {
    var p, w := PostOrder(ancestors, cmd), ChildWalks(ancestors, cmd, |cmd.children|);
    ChildWalksNodes(ancestors, cmd, |cmd.children|);
    forall k | 0 <= k < |p| - 1
      ensures Below(ancestors + [cmd], p[k])
    {
      assert p[k] == w[k];
    }
  }

  lemma {:induction false} ChildWalksNodes(ancestors: seq<Command>, cmd: Command, i: nat)
    requires i <= |cmd.children|
    ensures forall n :: n in ChildWalks(ancestors, cmd, i) ==> Below(ancestors + [cmd], n)
    decreases cmd, 0, i
  {
    if i > 0 {
      var c := cmd.children[i - 1];
      ChildWalksNodes(ancestors, cmd, i - 1);
      if Eligible(c) {
        var anc := ancestors + [cmd];
        assert anc[|anc| - 1] == cmd;
        PostOrderNodes(anc, c);
        var w0, sub := ChildWalks(ancestors, cmd, i - 1), PostOrder(anc, c);
        var w := ChildWalks(ancestors, cmd, i);
        assert w == w0 + sub;
        forall k | 0 <= k < |w|
          ensures Below(anc, w[k])
        {
          if k < |w0| {
            assert w[k] == w0[k];
          } else {
            var m := k - |w0|;
            assert w[k] == sub[m];
            if m < |sub| - 1 {
              BelowChild(anc, c, sub[m]);
            } else {
              BelowOwnPage(anc, c);
            }
          }
        }
      }
    }
  }

  /** The walks of more children extend the walks of fewer. */
  lemma {:induction false} ChildWalksGrow(ancestors: seq<Command>, cmd: Command, i: nat, m: nat)
    requires i <= m <= |cmd.children|
    ensures var wi, wm := ChildWalks(ancestors, cmd, i), ChildWalks(ancestors, cmd, m);
      |wi| <= |wm| && wm[..|wi|] == wi
    decreases m - i
  {
    if i < m {
      ChildWalksGrow(ancestors, cmd, i, m - 1);
      var wi, wm1 := ChildWalks(ancestors, cmd, i), ChildWalks(ancestors, cmd, m - 1);
      var wm := ChildWalks(ancestors, cmd, m);
      assert wm[..|wm1|] == wm1;
      assert wm[..|wi|] == wm1[..|wi|];
    }
  }

  /** What the walk of `cmd` does after its first `i` children. */
  lemma PostOrderAfter(ancestors: seq<Command>, cmd: Command, i: nat) returns (rest: seq<Node>)
    requires i <= |cmd.children|
    ensures PostOrder(ancestors, cmd) == ChildWalks(ancestors, cmd, i) + rest
  {
    var p, all := PostOrder(ancestors, cmd), ChildWalks(ancestors, cmd, |cmd.children|);
    var upto := ChildWalks(ancestors, cmd, i);
    ChildWalksGrow(ancestors, cmd, i, |cmd.children|);
    rest := p[|upto|..];
    assert p[..|upto|] == all[..|upto|] == upto;
    assert p == p[..|upto|] + rest;
  }

  /** Children before their parent: the whole walk of each eligible child is one
      block of the parent's walk, and it ends before the parent's own page. The
      block of the `i`-th child starts where the walks of the earlier children end. */
  lemma SubtreeBeforeParent(ancestors: seq<Command>, cmd: Command, i: nat)
    requires i < |cmd.children| && Eligible(cmd.children[i])
    ensures var p, sub := PostOrder(ancestors, cmd), PostOrder(ancestors + [cmd], cmd.children[i]);
      var start := |ChildWalks(ancestors, cmd, i)|;
      start + |sub| < |p| && p[start..start + |sub|] == sub
  {
    var p, sub := PostOrder(ancestors, cmd), PostOrder(ancestors + [cmd], cmd.children[i]);
    var before, upto := ChildWalks(ancestors, cmd, i), ChildWalks(ancestors, cmd, i + 1);
    var all := ChildWalks(ancestors, cmd, |cmd.children|);
    ChildWalksGrow(ancestors, cmd, i + 1, |cmd.children|);
    assert upto == before + sub;
    assert p[..|upto|] == all[..|upto|] == upto;
    assert p[|before|..|before| + |sub|] == upto[|before|..];
  }

  // ---------------------------------------------------------------- what the walk writes

  /** `content` is a page of `n` rendered with the children in `order`, behind
      the prefix for the file: `order` is the children sorted by name when the page
      has a See Also section, and the children as they were otherwise. */
  ghost predicate RenderedWith(cfg: Config, n: Node, order: seq<Command>, content: string)
  {
    && multiset(order) == multiset(n.cmd.children)
    && (ShowsSeeAlso(n.ancestors, n.cmd) ==> SortedByName(order))
    && (!ShowsSeeAlso(n.ancestors, n.cmd) ==> order == n.cmd.children)
    && content == cfg.prepender(FileName(cfg, n)) + Page(n.ancestors, n.cmd, cfg.link, cfg.date, order)
  }

  /** The sort leaves ties between equal names in an order it does not promise,
      so a page is whatever one of the admissible orders renders. */
  ghost predicate Rendered(cfg: Config, n: Node, content: string)
  {
    exists order :: RenderedWith(cfg, n, order, content)
  }

  /** One of the three operations fails on the file of `n`. */
  predicate Faulty(cfg: Config, n: Node)
  {
    var name := FileName(cfg, n);
    cfg.fault(name, Create) || cfg.fault(name, WritePrepend) || cfg.fault(name, WriteBody)
  }

  /** The files opened and the outcome of the walk over the pages `plan`, in
      order: each page opens its file, writes the prefix and then the page, and
      the first operation that fails ends the walk with its error, leaving in
      that file what was written before. What a completed page holds is
      `PagesRendered`. */
  ghost predicate WalkMatches(cfg: Config, plan: seq<Node>, files: seq<WrittenFile>, outcome: Outcome)
    decreases |plan|
  {
    if plan == [] then files == [] && outcome == Success
    else
      var name := FileName(cfg, plan[0]);
      if cfg.fault(name, Create) then
        files == [] && outcome == Failure(IoError(name, Create))
      else if cfg.fault(name, WritePrepend) then
        files == [WrittenFile(name, "")] && outcome == Failure(IoError(name, WritePrepend))
      else if cfg.fault(name, WriteBody) then
        files == [WrittenFile(name, cfg.prepender(name))] && outcome == Failure(IoError(name, WriteBody))
      else
        files != [] && files[0].path == name && WalkMatches(cfg, plan[1..], files[1..], outcome)
  }

  /** Every file written for a page on which no operation failed holds the
      prefix and a rendering of that page. */
  ghost predicate PagesRendered(cfg: Config, plan: seq<Node>, files: seq<WrittenFile>)
  {
    forall k :: 0 <= k < |files| && k < |plan| && !Faulty(cfg, plan[k]) ==> Rendered(cfg, plan[k], files[k].content)
  }

  lemma {:induction false} WalkThen(cfg: Config, p1: seq<Node>, f1: seq<WrittenFile>, p2: seq<Node>, f2: seq<WrittenFile>, outcome: Outcome)
    requires WalkMatches(cfg, p1, f1, Success) && WalkMatches(cfg, p2, f2, outcome)
    ensures WalkMatches(cfg, p1 + p2, f1 + f2, outcome)
    decreases |p1|
  {
    if p1 == [] {
      assert p1 + p2 == p2 && f1 + f2 == f2;
    } else {
      assert (p1 + p2)[0] == p1[0] && (p1 + p2)[1..] == p1[1..] + p2;
      assert (f1 + f2)[0] == f1[0] && (f1 + f2)[1..] == f1[1..] + f2;
      WalkThen(cfg, p1[1..], f1[1..], p2, f2, outcome);
    }
  }

  lemma {:induction false} WalkStops(cfg: Config, p1: seq<Node>, f1: seq<WrittenFile>, e: IoError, p2: seq<Node>)
    requires WalkMatches(cfg, p1, f1, Failure(e))
    ensures WalkMatches(cfg, p1 + p2, f1, Failure(e))
    decreases |p1|
  {
    assert (p1 + p2)[0] == p1[0] && (p1 + p2)[1..] == p1[1..] + p2;
    if !Faulty(cfg, p1[0]) {
      WalkStops(cfg, p1[1..], f1[1..], e, p2);
    }
  }

  /** A walk writes one file per page when it succeeds, and no more files than
      pages otherwise. */
  lemma {:induction false} WalkLength(cfg: Config, plan: seq<Node>, files: seq<WrittenFile>, outcome: Outcome)
    requires WalkMatches(cfg, plan, files, outcome)
    ensures |files| <= |plan|
    ensures outcome == Success ==> |files| == |plan|
    decreases |plan|
  {
    if plan != [] && !Faulty(cfg, plan[0]) {
      WalkLength(cfg, plan[1..], files[1..], outcome);
    }
  }

  lemma PagesRenderedThen(cfg: Config, p1: seq<Node>, f1: seq<WrittenFile>, p2: seq<Node>, f2: seq<WrittenFile>)
    requires PagesRendered(cfg, p1, f1) && PagesRendered(cfg, p2, f2) && |f1| == |p1|
    ensures PagesRendered(cfg, p1 + p2, f1 + f2)
  {
    var p, f := p1 + p2, f1 + f2;
    forall k | 0 <= k < |f| && k < |p| && !Faulty(cfg, p[k])
      ensures Rendered(cfg, p[k], f[k].content)
    {
      if k >= |p1| {
        assert p[k] == p2[k - |p1|] && f[k] == f2[k - |p1|];
      }
    }
  }

  lemma PagesRenderedLonger(cfg: Config, plan: seq<Node>, files: seq<WrittenFile>, rest: seq<Node>)
    requires PagesRendered(cfg, plan, files) && |files| <= |plan|
    ensures PagesRendered(cfg, plan + rest, files)
  {
    forall k | 0 <= k < |files| && k < |plan + rest| && !Faulty(cfg, (plan + rest)[k])
      ensures Rendered(cfg, (plan + rest)[k], files[k].content)
    {
      assert (plan + rest)[k] == plan[k];
    }
  }

  /** The walk succeeds exactly when no operation fails on any of its files, and
      then it has written one file per page, in order, under that page's name. */
  lemma {:induction false} WalkSucceeds(cfg: Config, plan: seq<Node>, files: seq<WrittenFile>, outcome: Outcome)
    requires WalkMatches(cfg, plan, files, outcome)
    ensures outcome == Success <==> forall k :: 0 <= k < |plan| ==> !Faulty(cfg, plan[k])
    ensures outcome == Success ==>
      |files| == |plan| && forall k :: 0 <= k < |plan| ==> files[k].path == FileName(cfg, plan[k])
    decreases |plan|
  {
    if plan != [] && !Faulty(cfg, plan[0]) {
      var rest, restFiles := plan[1..], files[1..];
      WalkSucceeds(cfg, rest, restFiles, outcome);
      assert forall k :: 0 < k < |plan| ==> plan[k] == rest[k - 1];
      assert outcome == Success ==> forall k :: 0 < k < |files| ==> files[k] == restFiles[k - 1];
    }
  }

  /** With no failure, every file holds the prefix and a rendering of its page. */
  lemma AllPagesRendered(cfg: Config, plan: seq<Node>, files: seq<WrittenFile>)
    requires WalkMatches(cfg, plan, files, Success) && PagesRendered(cfg, plan, files)
    ensures |files| == |plan|
    ensures forall k :: 0 <= k < |plan| ==> Rendered(cfg, plan[k], files[k].content)
  {
    WalkSucceeds(cfg, plan, files, Success);
  }

  /** Page `k` is the first on which an operation fails, and the walk ended there. */
  ghost predicate FirstFault(cfg: Config, plan: seq<Node>, files: seq<WrittenFile>, e: IoError, k: nat)
    requires k < |plan|
  {
    var name := FileName(cfg, plan[k]);
    && e.path == name
    && cfg.fault(name, e.step)
    && (e.step == WritePrepend ==> !cfg.fault(name, Create))
    && (e.step == WriteBody ==> !cfg.fault(name, Create) && !cfg.fault(name, WritePrepend))
    && (forall j :: 0 <= j < k ==> !Faulty(cfg, plan[j]))
    && |files| == k + (if e.step == Create then 0 else 1)
    && (forall j :: 0 <= j < k ==> files[j].path == FileName(cfg, plan[j]))
    && (e.step == WritePrepend ==> files[k] == WrittenFile(name, ""))
    && (e.step == WriteBody ==> files[k] == WrittenFile(name, cfg.prepender(name)))
  }

  /** The first error ends the walk: the error names the first file on which an
      operation failed and that operation (the first of the three to fail); every
      page before it has its file, and the failing page's file, if it was
      created, holds what was written before the failure. */
  lemma {:induction false} WalkFailsAtFirstFault(cfg: Config, plan: seq<Node>, files: seq<WrittenFile>, e: IoError)
    requires WalkMatches(cfg, plan, files, Failure(e))
    ensures exists k :: 0 <= k < |plan| && FirstFault(cfg, plan, files, e, k)
    decreases |plan|
  {
    if Faulty(cfg, plan[0]) {
      assert FirstFault(cfg, plan, files, e, 0);
    } else {
      var rest, restFiles := plan[1..], files[1..];
      WalkFailsAtFirstFault(cfg, rest, restFiles, e);
      var k :| 0 <= k < |rest| && FirstFault(cfg, rest, restFiles, e, k);
      assert forall j :: 0 < j <= k + 1 ==> plan[j] == rest[j - 1];
      assert forall j :: 0 < j < |files| ==> files[j] == restFiles[j - 1];
      assert FirstFault(cfg, plan, files, e, k + 1);
    }
  }

  // ---------------------------------------------------------------- the walk

  /** `GenTreeCustom`: writes the pages of the eligible children's trees, in the
      order cobra lists the children, then the page of `cmd`; the first error is
      returned at once. */
  method GenTreeCustom(ancestors: seq<Command>, cmd: Command, cfg: Config)
    returns (files: seq<WrittenFile>, outcome: Outcome)
    ensures WalkMatches(cfg, PostOrder(ancestors, cmd), files, outcome)
    ensures PagesRendered(cfg, PostOrder(ancestors, cmd), files)
    decreases cmd, 1
  {
    files := [];
    for i := 0 to |cmd.children|
      invariant WalkMatches(cfg, ChildWalks(ancestors, cmd, i), files, Success)
      invariant PagesRendered(cfg, ChildWalks(ancestors, cmd, i), files)
    {
      var err;
      files, err := GenChildTree(ancestors, cmd, cfg, i, files);
      if err.Failure? {
        return files, err;
      }
    }
    var mine;
    mine, outcome := GenPage(ancestors, cmd, cfg);
    OwnPageLast(cfg, ancestors, cmd, files, mine, outcome);
    files := files + mine;
  }

  /** One turn of `GenTreeCustom`'s loop over the children: the `i`-th child is
      skipped when it is unavailable or a help topic, and its tree is walked
      otherwise. On success the walk so far covers the first `i + 1` children;
      on failure the whole walk of `cmd` ends with that error. */
  method GenChildTree(ancestors: seq<Command>, cmd: Command, cfg: Config, i: nat, files: seq<WrittenFile>)
    returns (files': seq<WrittenFile>, outcome: Outcome)
    requires i < |cmd.children|
    requires WalkMatches(cfg, ChildWalks(ancestors, cmd, i), files, Success)
    requires PagesRendered(cfg, ChildWalks(ancestors, cmd, i), files)
    ensures outcome.Success? ==> WalkMatches(cfg, ChildWalks(ancestors, cmd, i + 1), files', Success)
    ensures outcome.Success? ==> PagesRendered(cfg, ChildWalks(ancestors, cmd, i + 1), files')
    ensures outcome.Failure? ==> WalkMatches(cfg, PostOrder(ancestors, cmd), files', outcome)
    ensures outcome.Failure? ==> PagesRendered(cfg, PostOrder(ancestors, cmd), files')
    decreases cmd, 0
  {
    var c := cmd.children[i];
    if !c.available || c.helpTopic {
      assert ChildWalks(ancestors, cmd, i + 1) == ChildWalks(ancestors, cmd, i);
      return files, Success;
    }
    var sub;
    sub, outcome := GenTreeCustom(ancestors + [cmd], c, cfg);
    ChildWalked(cfg, ancestors, cmd, i, files, sub, outcome);
    files' := files + sub;
  }

  /** The walk of an eligible child extends the walk so far; when it fails, the
      walk of `cmd` stops with it. */
  lemma ChildWalked(cfg: Config, ancestors: seq<Command>, cmd: Command, i: nat,
                    files: seq<WrittenFile>, sub: seq<WrittenFile>, outcome: Outcome)
    requires i < |cmd.children| && Eligible(cmd.children[i])
    requires WalkMatches(cfg, ChildWalks(ancestors, cmd, i), files, Success)
    requires PagesRendered(cfg, ChildWalks(ancestors, cmd, i), files)
    requires WalkMatches(cfg, PostOrder(ancestors + [cmd], cmd.children[i]), sub, outcome)
    requires PagesRendered(cfg, PostOrder(ancestors + [cmd], cmd.children[i]), sub)
    ensures WalkMatches(cfg, ChildWalks(ancestors, cmd, i + 1), files + sub, outcome)
    ensures PagesRendered(cfg, ChildWalks(ancestors, cmd, i + 1), files + sub)
    ensures outcome.Failure? ==>
      WalkMatches(cfg, PostOrder(ancestors, cmd), files + sub, outcome) &&
      PagesRendered(cfg, PostOrder(ancestors, cmd), files + sub)
  {
    var walked, child := ChildWalks(ancestors, cmd, i), PostOrder(ancestors + [cmd], cmd.children[i]);
    var upto := ChildWalks(ancestors, cmd, i + 1);
    assert upto == walked + child;
    WalkThen(cfg, walked, files, child, sub, outcome);
    WalkLength(cfg, walked, files, Success);
    PagesRenderedThen(cfg, walked, files, child, sub);
    if outcome.Failure? {
      var rest := PostOrderAfter(ancestors, cmd, i + 1);
      WalkStops(cfg, upto, files + sub, outcome.error, rest);
      WalkLength(cfg, upto, files + sub, outcome);
      PagesRenderedLonger(cfg, upto, files + sub, rest);
    }
  }

  /** After the walks of all children, the page of `cmd` completes its walk. */
  lemma OwnPageLast(cfg: Config, ancestors: seq<Command>, cmd: Command,
                    files: seq<WrittenFile>, mine: seq<WrittenFile>, outcome: Outcome)
    requires WalkMatches(cfg, ChildWalks(ancestors, cmd, |cmd.children|), files, Success)
    requires PagesRendered(cfg, ChildWalks(ancestors, cmd, |cmd.children|), files)
    requires WalkMatches(cfg, [Node(ancestors, cmd)], mine, outcome)
    requires PagesRendered(cfg, [Node(ancestors, cmd)], mine)
    ensures WalkMatches(cfg, PostOrder(ancestors, cmd), files + mine, outcome)
    ensures PagesRendered(cfg, PostOrder(ancestors, cmd), files + mine)
  {
    var walked := ChildWalks(ancestors, cmd, |cmd.children|);
    WalkLength(cfg, walked, files, Success);
    WalkThen(cfg, walked, files, [Node(ancestors, cmd)], mine, outcome);
    PagesRenderedThen(cfg, walked, files, [Node(ancestors, cmd)], mine);
  }

  /** The page of `cmd` itself: create the file, write the prefix, render and
      write the page. Returns the file, if it was created, and the outcome. */
  method GenPage(ancestors: seq<Command>, cmd: Command, cfg: Config)
    returns (files: seq<WrittenFile>, outcome: Outcome)
    ensures WalkMatches(cfg, [Node(ancestors, cmd)], files, outcome)
    ensures PagesRendered(cfg, [Node(ancestors, cmd)], files)
  {
    var basename := ReplaceChar(CommandPath(ancestors, cmd), ' ', '-') + ".txt";
    var filename := JoinPath(cfg.dir, basename);
    ghost var own := Node(ancestors, cmd);
    assert filename == FileName(cfg, own);
    if cfg.fault(filename, Create) {
      return [], Failure(IoError(filename, Create));
    }
    if cfg.fault(filename, WritePrepend) {
      return [WrittenFile(filename, "")], Failure(IoError(filename, WritePrepend));
    }
    var prefix := cfg.prepender(filename);
    var written, updated := GenCustom(ancestors, cmd, cfg.link, cfg.date, cfg.fault(filename, WriteBody));
    match written {
      case None =>
        files, outcome := [WrittenFile(filename, prefix)], Failure(IoError(filename, WriteBody));
      case Some(page) =>
        var mine := WrittenFile(filename, prefix + page);
        CompletedPage(cfg, own, updated.children, mine);
        files, outcome := [mine], Success;
    }
  }

  /** A page on which nothing fails is a walk of one page that writes it. */
  lemma CompletedPage(cfg: Config, n: Node, order: seq<Command>, f: WrittenFile)
    requires !Faulty(cfg, n) && f.path == FileName(cfg, n) && RenderedWith(cfg, n, order, f.content)
    ensures WalkMatches(cfg, [n], [f], Success) && PagesRendered(cfg, [n], [f])
  {
    assert [n][1..] == [] && [f][1..] == [];
  }

  /** `GenTree`: the walk from `cmd`, which may be the root or any command
      below it (`ancestors`, root first), with an empty prefix and the default links. */
  method GenTree(ancestors: seq<Command>, cmd: Command, dir: string, date: string, fault: (string, Step) -> bool)
    returns (files: seq<WrittenFile>, outcome: Outcome)
    ensures var cfg := Config(dir, s => "", DefaultLinkHandler, date, fault);
      WalkMatches(cfg, PostOrder(ancestors, cmd), files, outcome) && PagesRendered(cfg, PostOrder(ancestors, cmd), files)
  {
    files, outcome := GenTreeCustom(ancestors, cmd, Config(dir, s => "", DefaultLinkHandler, date, fault));
  }

  /** With the empty prefix of `GenTree`, every completed file begins with the
      anchor and title block of its command. */
  lemma GenTreePagesStartWithTitle(cfg: Config, n: Node, content: string)
    requires forall s :: cfg.prepender(s) == ""
    requires Rendered(cfg, n, content)
    ensures var title := TitleBlock(CommandPath(n.ancestors, n.cmd));
      |title| <= |content| && content[..|title|] == title
  {
    var order :| RenderedWith(cfg, n, order, content);
    PageStartsWithTitle(n.ancestors, n.cmd, cfg.link, cfg.date, order);
    assert content == Page(n.ancestors, n.cmd, cfg.link, cfg.date, order);
  }
}
