/** String operations that the page renderer takes from Go's `strings` package,
    on strings seen as sequences of characters. */
module Text {

  datatype Option<+T> = None | Some(value: T)

  /** `pat` occurs in `t` starting at index `i`. */
  predicate OccursAt(t: string, pat: string, i: int)
  {
    0 <= i && i + |pat| <= |t| && t[i..i + |pat|] == pat
  }

  ghost predicate Contains(t: string, pat: string)
  {
    exists i :: OccursAt(t, pat, i)
  }

  lemma Assoc(a: string, b: string, c: string)
    ensures a + b + c == a + (b + c)
  {
  }

  /** Appending parts one after the other appends their concatenation. */
  lemma Regroup3(x: string, a: string, b: string, c: string)
    ensures x + a + b + c == x + (a + b + c)
  {
  }

  lemma Regroup4(x: string, a: string, b: string, c: string, d: string)
    ensures x + a + b + c + d == x + (a + b + c + d)
  {
  }

  lemma Regroup5(x: string, a: string, b: string, c: string, d: string, e: string)
    ensures x + a + b + (c + d + e) == x + (a + b + c + d + e)
  {
  }

  lemma Regroup6(x: string, a: string, b: string, c: string, d: string, e: string, f: string)
    ensures x + a + b + c + d + e + f == x + (a + b + c + d + e + f)
  {
  }

  /** `strings.ReplaceAll(s, from, to)` where both patterns are a single character,
      as in the renderer's space-to-underscore and space-to-hyphen rewrites. */
  function ReplaceChar(s: string, from: char, to: char): (r: string)
    ensures |r| == |s|
    ensures forall i :: 0 <= i < |s| ==> r[i] == (if s[i] == from then to else s[i])
  {
    if s == [] then [] else [if s[0] == from then to else s[0]] + ReplaceChar(s[1..], from, to)
  }

  lemma ReplaceCharRemoves(s: string, from: char, to: char)
    requires from != to
    ensures from !in ReplaceChar(s, from, to)
  {
    var r := ReplaceChar(s, from, to);
    forall i | 0 <= i < |r| ensures r[i] != from {
    }
  }

  /** `strings.Repeat(string(c), n)`. */
  function Repeat(c: char, n: nat): (r: string)
    ensures |r| == n
    ensures forall i :: 0 <= i < n ==> r[i] == c
  {
    if n == 0 then [] else [c] + Repeat(c, n - 1)
  }

  /** `strings.ReplaceAll(s, pat, rep)` for a non-empty `pat`: scanning from the left,
      each occurrence of `pat` that does not overlap an earlier replaced one
      is replaced by `rep`. */
  function ReplaceAll(s: string, pat: string, rep: string): string
    requires pat != []
    decreases |s|
  {
    if |s| < |pat| then s
    else if s[..|pat|] == pat then rep + ReplaceAll(s[|pat|..], pat, rep)
    else [s[0]] + ReplaceAll(s[1..], pat, rep)
  }

  /** A string without an occurrence of the pattern is left as it is. */
  lemma {:induction false} ReplaceAllAbsent(s: string, pat: string, rep: string)
    requires pat != []
    requires !Contains(s, pat)
    ensures ReplaceAll(s, pat, rep) == s
    decreases |s|
  {
    if |s| >= |pat| {
      assert !OccursAt(s, pat, 0);
      assert s[..|pat|] != pat;
      forall i | OccursAt(s[1..], pat, i) ensures OccursAt(s, pat, i + 1) {
        assert s[i + 1..i + 1 + |pat|] == s[1..][i..i + |pat|];
      }
      ReplaceAllAbsent(s[1..], pat, rep);
      assert s == [s[0]] + s[1..];
    }
  }

  /** The scan moves past a character that cannot start the pattern. */
  lemma ReplaceAllSkip(s: string, pat: string, rep: string)
    requires pat != [] && s != [] && s[0] != pat[0]
    ensures ReplaceAll(s, pat, rep) == [s[0]] + ReplaceAll(s[1..], pat, rep)
  {
    if |s| >= |pat| {
      assert s[..|pat|][0] != pat[0];
    } else {
      assert s == [s[0]] + s[1..];
    }
  }

  /** An occurrence of `pat` preceded only by characters that cannot start it
      is replaced where it stands. */
  lemma {:induction false} ReplaceAllAt(u: string, pat: string, rep: string, v: string)
    requires pat != []
    requires pat[0] !in u
    ensures ReplaceAll(u + pat + v, pat, rep) == u + rep + ReplaceAll(v, pat, rep)
  {
    var s := u + pat + v;
    if u == [] {
      assert s == pat + v;
      assert s[..|pat|] == pat;
      assert s[|pat|..] == v;
    } else {
      ReplaceAllSkip(s, pat, rep);
      assert s[1..] == u[1..] + pat + v;
      ReplaceAllAt(u[1..], pat, rep, v);
      assert u == [u[0]] + u[1..];
    }
  }
}
