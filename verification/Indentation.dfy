/** `indentString(s, p)`: the prefix `p` is written in front of every line of `s`
    that is not empty. The source walks the bytes of `s`; here it walks the
    characters, which inserts at the same places because a newline byte never
    occurs inside a multi-byte UTF-8 character. */
module Indentation {
  import opened Text

  /** Index `i` (possibly `|s|`) is at the start of a line: nothing or a newline is before it. */
  predicate AtLineStart(s: string, i: nat)
    requires i <= |s|
  {
    i == 0 || s[i - 1] == '\n'
  }

  /** The character at `i` begins a non-empty line: this is where a prefix goes. */
  predicate IsLineStart(s: string, i: nat)
  {
    i < |s| && AtLineStart(s, i) && s[i] != '\n'
  }

  ghost function LineStarts(s: string): set<nat>
  {
    set i: nat | i < |s| && IsLineStart(s, i)
  }

  /** The text the loop appends for the rest `s` of the input, when `bol` says
      whether the previous character ended a line. */
  function IndentFrom(s: string, p: string, bol: bool): string
  {
    if s == [] then []
    else (if bol && s[0] != '\n' then p else []) + [s[0]] + IndentFrom(s[1..], p, s[0] == '\n')
  }

  function Indented(s: string, p: string): string
  {
    IndentFrom(s, p, true)
  }

  /** The source's `indentString`: a loop with a beginning-of-line flag. */
  method IndentString(s: string, p: string) returns (res: string)
    ensures res == Indented(s, p)
  {
    res := [];
    var bol := true;
    for i := 0 to |s|
      invariant res + IndentFrom(s[i..], p, bol) == Indented(s, p)
    {
      var c := s[i];
      ghost var before, rest := res, IndentFrom(s[i + 1..], p, c == '\n');
      ghost var pre: string := if bol && c != '\n' then p else [];
      IndentFromAt(s, p, i, bol);
      if bol && c != '\n' {
        res := res + p;
      }
      res := res + [c];
      bol := c == '\n';
      Regroup3(before, pre, [c], rest);
    }
    assert s[|s|..] == [];
  }

  /** One step of the loop: the text appended for `s[i..]` begins with the
      character at `i`, preceded by `p` when a line starts there. */
  lemma IndentFromAt(s: string, p: string, i: nat, bol: bool)
    requires i < |s|
    ensures IndentFrom(s[i..], p, bol) == (if bol && s[i] != '\n' then p else []) + [s[i]] + IndentFrom(s[i + 1..], p, s[i] == '\n')
  {
    assert s[i..][1..] == s[i + 1..];
  }

  /** Whether a line is open after reading `a` with the flag `bol` at its start. */
  function BolAfter(a: string, bol: bool): bool
  {
    if a == [] then bol else a[|a| - 1] == '\n'
  }

  lemma {:induction false} IndentFromAppend(a: string, b: string, p: string, bol: bool)
    ensures IndentFrom(a + b, p, bol) == IndentFrom(a, p, bol) + IndentFrom(b, p, BolAfter(a, bol))
  {
    if a == [] {
      assert a + b == b;
    } else {
      var head: string := (if bol && a[0] != '\n' then p else []) + [a[0]];
      assert (a + b)[1..] == a[1..] + b;
      IndentFromAppend(a[1..], b, p, a[0] == '\n');
      assert BolAfter(a[1..], a[0] == '\n') == BolAfter(a, bol);
      Assoc(head, IndentFrom(a[1..], p, a[0] == '\n'), IndentFrom(b, p, BolAfter(a, bol)));
    }
  }

  /** Reading the input one character at a time: `p` is put in front of the
      character at `k` exactly when `k` begins a non-empty line. Empty lines,
      and the end after a trailing newline, get no prefix. */
  lemma IndentedStep(s: string, p: string, k: nat)
    requires k < |s|
    ensures Indented(s[..k + 1], p) == Indented(s[..k], p) + (if IsLineStart(s, k) then p else []) + [s[k]]
  {
    assert s[..k + 1] == s[..k] + [s[k]];
    IndentFromAppend(s[..k], [s[k]], p, true);
    assert BolAfter(s[..k], true) == AtLineStart(s, k);
  }

  ghost function StartsBefore(s: string, k: nat): set<nat>
  {
    set i: nat | i < k && IsLineStart(s, i)
  }

  lemma StartsBeforeStep(s: string, k: nat)
    ensures |StartsBefore(s, k + 1)| == |StartsBefore(s, k)| + (if IsLineStart(s, k) then 1 else 0)
  {
    var before, upto := StartsBefore(s, k), StartsBefore(s, k + 1);
    var added: set<nat> := if IsLineStart(s, k) then {k} else {};
    forall i: nat ensures i in upto <==> i in before + added {
    }
    assert upto == before + added;
    assert before !! added;
  }

  lemma {:induction false} IndentedPrefixLength(s: string, p: string, k: nat)
    requires k <= |s|
    ensures |Indented(s[..k], p)| == k + |p| * |StartsBefore(s, k)|
  {
    if k == 0 {
      assert StartsBefore(s, 0) == {};
    } else {
      IndentedPrefixLength(s, p, k - 1);
      IndentedStep(s, p, k - 1);
      StartsBeforeStep(s, k - 1);
      var n := |StartsBefore(s, k - 1)|;
      if IsLineStart(s, k - 1) {
        assert |p| * (n + 1) == |p| * n + |p|;
      }
    }
  }

  /** The result is the input plus one copy of `p` per non-empty line. */
  lemma IndentedLength(s: string, p: string)
    ensures |Indented(s, p)| == |s| + |p| * |LineStarts(s)|
  {
    IndentedPrefixLength(s, p, |s|);
    assert s[..|s|] == s;
    assert LineStarts(s) == StartsBefore(s, |s|);
  }

  /** Strips one copy of `p` from the start of every non-empty line. */
  function UnindentFrom(t: string, p: string, bol: bool): string
    decreases |t|
  {
    if t == [] then []
    else if bol && t[0] != '\n' && 0 < |p| <= |t| && t[..|p|] == p then UnindentFrom(t[|p|..], p, false)
    else [t[0]] + UnindentFrom(t[1..], p, t[0] == '\n')
  }

  function Unindented(t: string, p: string): string
  {
    UnindentFrom(t, p, true)
  }

  lemma {:induction false} UnindentIndentFrom(s: string, p: string, bol: bool)
    requires p == [] || p[0] != '\n'
    ensures UnindentFrom(IndentFrom(s, p, bol), p, bol) == s
  {
    if s != [] {
      var t := IndentFrom(s, p, bol);
      var rest := IndentFrom(s[1..], p, s[0] == '\n');
      UnindentIndentFrom(s[1..], p, s[0] == '\n');
      if bol && s[0] != '\n' && p != [] {
        assert t == p + ([s[0]] + rest);
        assert t[..|p|] == p;
        assert t[|p|..] == [s[0]] + rest;
        assert ([s[0]] + rest)[1..] == rest;
      } else {
        assert t == [s[0]] + rest;
        assert t[1..] == rest;
      }
      assert s == [s[0]] + s[1..];
    }
  }

  /** Round trip: stripping the prefix from every non-empty line gives back the
      original text, for any prefix that does not itself start with a newline. */
  lemma UnindentIndent(s: string, p: string)
    requires p == [] || p[0] != '\n'
    ensures Unindented(Indented(s, p), p) == s
  {
    UnindentIndentFrom(s, p, true);
  }
}
