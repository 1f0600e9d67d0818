/**
 * The two string built-ins the quiz engine relies on: `String.prototype.trim`
 * and `String.prototype.toLowerCase`. Trimming uses the exact set of
 * characters ECMAScript calls WhiteSpace or LineTerminator; lower-casing is
 * restricted to the ASCII letters (see README, "Left out").
 */
module Text {

  /** A character that `trim` removes: ECMAScript WhiteSpace or LineTerminator. */
  predicate IsSpace(c: char) {
    var n := c as int;
    || n == 0x09 || n == 0x0A || n == 0x0B || n == 0x0C || n == 0x0D || n == 0x20
    || n == 0xA0 || n == 0x1680 || (0x2000 <= n <= 0x200A)
    || n == 0x2028 || n == 0x2029 || n == 0x202F || n == 0x205F
    || n == 0x3000 || n == 0xFEFF
  }

  predicate AllSpace(s: string) {
    forall i :: 0 <= i < |s| ==> IsSpace(s[i])
  }

  /** `s` starts and ends with a character `trim` keeps (or is empty). */
  predicate Trimmed(s: string) {
    s == [] || (!IsSpace(s[0]) && !IsSpace(s[|s| - 1]))
  }

  /** The number of white-space characters `s` starts with. */
  function LeadingSpace(s: string): (n: nat)
    ensures n <= |s|
    ensures forall i :: 0 <= i < n ==> IsSpace(s[i])
    ensures n < |s| ==> !IsSpace(s[n])
  {
    if s != [] && IsSpace(s[0]) then 1 + LeadingSpace(s[1..]) else 0
  }

  /** The number of white-space characters `s` ends with. */
  function TrailingSpace(s: string): (n: nat)
    ensures n <= |s|
    ensures forall i :: |s| - n <= i < |s| ==> IsSpace(s[i])
    ensures n < |s| ==> !IsSpace(s[|s| - 1 - n])
  {
    if s != [] && IsSpace(s[|s| - 1]) then 1 + TrailingSpace(s[..|s| - 1]) else 0
  }

  /** `String.prototype.trim`: drops the leading, then the trailing white space. */
  function Trim(s: string): (r: string)
    ensures Trimmed(r)
    ensures r == [] <==> AllSpace(s)
  {
    var t := s[LeadingSpace(s)..];
    t[..|t| - TrailingSpace(t)]
  }

  /** `toLowerCase` on one character: ASCII upper-case letters become lower-case, everything else is kept. */
  function LowerChar(c: char): char {
    if 'A' <= c <= 'Z' then (c as int - 'A' as int + 'a' as int) as char else c
  }

  /** `String.prototype.toLowerCase`, character by character. */
  function Lower(s: string): (r: string)
    ensures |r| == |s|
    ensures forall i :: 0 <= i < |s| ==> r[i] == LowerChar(s[i])
  {
    if s == [] then [] else [LowerChar(s[0])] + Lower(s[1..])
  }

  /** Trimming removes exactly the white space around a trimmed core. */
  lemma TrimPadded(pre: string, core: string, post: string)
    requires AllSpace(pre) && AllSpace(post) && Trimmed(core)
    ensures Trim(pre + core + post) == core
  {
    var s := pre + core + post;
    if core == [] {
      assert AllSpace(s) by {
        forall i | 0 <= i < |s| ensures IsSpace(s[i]) {
          if i < |pre| { assert s[i] == pre[i]; } else { assert s[i] == post[i - |pre|]; }
        }
      }
    } else {
      assert s[|pre|] == core[0];
      assert LeadingSpace(s) == |pre|;
      var t := s[|pre|..];
      assert t == core + post;
      assert t[|core| - 1] == core[|core| - 1];
      assert TrailingSpace(t) == |post|;
    }
  }

  /** Every string is its trimmed form with only white space before and after it. */
  lemma TrimSplit(s: string) returns (before: string, core: string, after: string)
    ensures s == before + core + after && Trim(s) == core
    ensures AllSpace(before) && AllSpace(after)
  {
    var k := LeadingSpace(s);
    var t := s[k..];
    var n := |t| - TrailingSpace(t);
    before, core, after := s[..k], t[..n], t[n..];
    assert Trim(s) == core;
    Assoc(before, core, after);
    assert t == core + after;
    assert s == before + t;
    SpacePrefix(s, k);
    SpaceSuffix(t, n);
  }

  /**
   * Associativity of `+`, stated apart so that the lemmas using it regroup
   * their pieces without the rest of their context in view.
   */
  lemma Assoc(a: string, b: string, c: string)
    ensures a + b + c == a + (b + c)
  {
  }

  /** Regrouping the pieces of a padded, split string (kept apart for the same reason). */
  lemma Regroup(pre: string, before: string, core: string, after: string, post: string)
    ensures pre + (before + core + after) + post == (pre + before) + core + (after + post)
  {
  }

  lemma SpacePrefix(s: string, k: nat)
    requires k <= |s| && forall i :: 0 <= i < k ==> IsSpace(s[i])
    ensures AllSpace(s[..k])
  {
    var p := s[..k];
    forall i | 0 <= i < |p| ensures IsSpace(p[i]) {
      assert p[i] == s[i];
    }
  }

  lemma SpaceSuffix(s: string, n: nat)
    requires n <= |s| && forall i :: n <= i < |s| ==> IsSpace(s[i])
    ensures AllSpace(s[n..])
  {
    var p := s[n..];
    forall i | 0 <= i < |p| ensures IsSpace(p[i]) {
      assert p[i] == s[n + i];
    }
  }

  /** White space added around a string does not change what `trim` returns. */
  lemma TrimIgnoresPadding(pre: string, s: string, post: string)
    requires AllSpace(pre) && AllSpace(post)
    ensures Trim(pre + s + post) == Trim(s)
  {
    var before, core, after := TrimSplit(s);
    AllSpaceConcat(pre, before);
    AllSpaceConcat(after, post);
    Regroup(pre, before, core, after, post);
    TrimPadded(pre + before, core, after + post);
  }

  lemma AllSpaceConcat(a: string, b: string)
    requires AllSpace(a) && AllSpace(b)
    ensures AllSpace(a + b)
  {
    forall i | 0 <= i < |a + b| ensures IsSpace((a + b)[i]) {
      if i < |a| { assert (a + b)[i] == a[i]; } else { assert (a + b)[i] == b[i - |a|]; }
    }
  }

  lemma TrimIdempotent(s: string)
    ensures Trim(Trim(s)) == Trim(s)
  {
    TrimPadded([], Trim(s), []);
    assert [] + Trim(s) + [] == Trim(s);
  }

  lemma LowerAppend(a: string, b: string)
    ensures Lower(a + b) == Lower(a) + Lower(b)
  {
    var l, r := Lower(a + b), Lower(a) + Lower(b);
    assert |l| == |r|;
    forall i | 0 <= i < |l| ensures l[i] == r[i] {
      if i < |a| { assert (a + b)[i] == a[i]; } else { assert (a + b)[i] == b[i - |a|]; }
    }
  }

  /** Lower-casing never creates or removes white space. */
  lemma LowerKeepsSpace(s: string)
    ensures AllSpace(Lower(s)) <==> AllSpace(s)
    ensures Trimmed(Lower(s)) <==> Trimmed(s)
  {
  }

  /** Trimming and lower-casing commute. */
  lemma LowerTrim(s: string)
    ensures Lower(Trim(s)) == Trim(Lower(s))
  {
    var pre, core, post := TrimSplit(s);
    LowerAppend(pre + core, post);
    LowerAppend(pre, core);
    LowerKeepsSpace(pre);
    LowerKeepsSpace(core);
    LowerKeepsSpace(post);
    TrimPadded(Lower(pre), Lower(core), Lower(post));
  }
}
