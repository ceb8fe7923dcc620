/**
 * The JavaScript string operations the game relies on, over `seq<char>`:
 * `trim`, `slice(-2)`, `toLowerCase` and the character classes `\s` and
 * `[a-zA-Z]`. Whitespace and case folding are the ASCII ones.
 */
module Text {

  type String = seq<char>

  /** ASCII whitespace as matched by `trim` and `\s`: space, tab, line feed,
      vertical tab, form feed and carriage return. */
  predicate IsSpace(c: char) {
    c == ' ' || 9 <= c as int <= 13
  }

  predicate IsAsciiLetter(c: char) {
    'a' <= c <= 'z' || 'A' <= c <= 'Z'
  }

  predicate AllSpace(s: String) {
    forall i :: 0 <= i < |s| ==> IsSpace(s[i])
  }

  predicate AllLetters(s: String) {
    forall i :: 0 <= i < |s| ==> IsAsciiLetter(s[i])
  }

  /** Removes the longest prefix whose characters all satisfy `p`. */
  function DropWhile(s: String, p: char -> bool): (r: String)
    ensures |r| <= |s| && r == s[|s| - |r|..]
    ensures forall i :: 0 <= i < |s| - |r| ==> p(s[i])
    ensures r == [] || !p(r[0])
    decreases |s|
  {
    if s != [] && p(s[0]) then DropWhile(s[1..], p) else s
  }

  /** Removes the longest suffix whose characters all satisfy `p`. */
  function DropLastWhile(s: String, p: char -> bool): (r: String)
    ensures r <= s
    ensures forall i :: |r| <= i < |s| ==> p(s[i])
    ensures r == [] || !p(r[|r| - 1])
    decreases |s|
  {
    if s != [] && p(s[|s| - 1]) then DropLastWhile(s[..|s| - 1], p) else s
  }

  /** The longest prefix whose characters all satisfy `p`. */
  function TakeWhile(s: String, p: char -> bool): (r: String)
    ensures r <= s
    ensures forall i :: 0 <= i < |r| ==> p(r[i])
    ensures |r| == |s| || !p(s[|r|])
    decreases |s|
  {
    if s != [] && p(s[0]) then [s[0]] + TakeWhile(s[1..], p) else []
  }

  /** `s.trim()`: the string without its leading and trailing whitespace. */
  function Trim(s: String): (r: String)
    ensures r == [] || (!IsSpace(r[0]) && !IsSpace(r[|r| - 1]))
    ensures |r| <= |s|
  {
    DropLastWhile(DropWhile(s, IsSpace), IsSpace)
  }

  /** `s.slice(-2)`: the last two characters, or all of `s` when it is shorter. */
  function LastTwo(s: String): (r: String)
    ensures |r| == if |s| < 2 then |s| else 2
    ensures r == s[|s| - |r|..]
    ensures |s| == 1 ==> r == [s[0]]
    ensures |s| >= 2 ==> r == s[|s| - 2..]
  {
    if |s| < 2 then s else s[|s| - 2..]
  }

  function LowerChar(c: char): char {
    if 'A' <= c <= 'Z' then (c as int + 32) as char else c
  }

  /** `s.toLowerCase()` restricted to ASCII letters: no upper-case ASCII
      letter remains, and every other character is kept. */
  function Lower(s: String): (r: String)
    ensures |r| == |s|
    ensures forall i :: 0 <= i < |s| ==> r[i] == LowerChar(s[i])
    ensures forall i :: 0 <= i < |r| ==> !('A' <= r[i] <= 'Z')
    ensures forall i :: 0 <= i < |s| && !('A' <= s[i] <= 'Z') ==> r[i] == s[i]
  {
    seq(|s|, i requires 0 <= i < |s| => LowerChar(s[i]))
  }

  /** When only `p`-characters follow position `k` and position `k - 1` is not
      one, dropping the trailing `p`-run keeps exactly `s[..k]`. */
  lemma DropLastWhileExactly(s: String, p: char -> bool, k: nat)
    requires k <= |s|
    requires forall i :: k <= i < |s| ==> p(s[i])
    requires k == 0 || !p(s[k - 1])
    ensures DropLastWhile(s, p) == s[..k]
  {
  }

  /** When position `k` is the first one that fails `p`, dropping the leading
      `p`-run keeps exactly `s[k..]`. */
  lemma {:induction false} DropWhileExactly(s: String, p: char -> bool, k: nat)
    requires k <= |s|
    requires forall i :: 0 <= i < k ==> p(s[i])
    requires k == |s| || !p(s[k])
    ensures DropWhile(s, p) == s[k..]
    decreases k
  {
    if k > 0 {
      assert p(s[0]);
      DropWhileExactly(s[1..], p, k - 1);
      assert s[1..][k - 1..] == s[k..];
    }
  }

  /** When the first `k` characters satisfy `p` and position `k` does not,
      the longest `p`-prefix is exactly `s[..k]`. */
  lemma {:induction false} TakeWhileExactly(s: String, p: char -> bool, k: nat)
    requires k <= |s|
    requires forall i :: 0 <= i < k ==> p(s[i])
    requires k == |s| || !p(s[k])
    ensures TakeWhile(s, p) == s[..k]
    decreases k
  {
    if k > 0 {
      assert p(s[0]);
      TakeWhileExactly(s[1..], p, k - 1);
      assert [s[0]] + s[1..][..k - 1] == s[..k];
    }
  }

  /** A string ending in two given characters has exactly those as its
      `slice(-2)`, whatever comes before them. */
  lemma LastTwoOfSuffix(front: String, two: String)
    requires |two| == 2
    ensures LastTwo(front + two) == two
  {
    var s := front + two;
    assert s[|s| - 2..] == two;
  }

  /** The leading half of `trim` removes exactly a run of whitespace in front
      of a part that does not itself begin with whitespace. */
  lemma DropLeadingSpace(lead: String, rest: String)
    requires AllSpace(lead)
    requires rest == [] || !IsSpace(rest[0])
    ensures DropWhile(lead + rest, IsSpace) == rest
  {
    var s := lead + rest;
    forall i | 0 <= i < |lead| ensures IsSpace(s[i]) {
      assert s[i] == lead[i];
    }
    if rest != [] {
      assert s[|lead|] == rest[0];
    }
    DropWhileExactly(s, IsSpace, |lead|);
    assert s[|lead|..] == rest;
  }

  /** The trailing half of `trim` removes exactly a run of whitespace after a
      part that does not itself end in whitespace. */
  lemma DropTrailingSpace(core: String, tail: String)
    requires AllSpace(tail)
    requires core == [] || !IsSpace(core[|core| - 1])
    ensures DropLastWhile(core + tail, IsSpace) == core
  {
    var s := core + tail;
    forall i | |core| <= i < |s| ensures IsSpace(s[i]) {
      assert s[i] == tail[i - |core|];
    }
    if core != [] {
      assert s[|core| - 1] == core[|core| - 1];
    }
    DropLastWhileExactly(s, IsSpace, |core|);
    assert s[..|core|] == core;
  }

  /** A sequence of whitespace followed by more whitespace is whitespace. */
  lemma AllSpaceConcat(a: String, b: String)
    requires AllSpace(a) && AllSpace(b)
    ensures AllSpace(a + b)
  {
    forall i | 0 <= i < |a + b| ensures IsSpace((a + b)[i]) {
      if i < |a| { assert (a + b)[i] == a[i]; } else { assert (a + b)[i] == b[i - |a|]; }
    }
  }

  /** `trim` removes exactly the whitespace around a core that neither begins
      nor ends with whitespace. */
  lemma TrimExactly(lead: String, core: String, tail: String)
    requires AllSpace(lead) && AllSpace(tail)
    requires core == [] || (!IsSpace(core[0]) && !IsSpace(core[|core| - 1]))
    ensures Trim(lead + core + tail) == core
  {
    if core == [] {
      AllSpaceConcat(lead, tail);
      assert lead + core + tail == (lead + tail) + [];
      DropLeadingSpace(lead + tail, []);
      DropTrailingSpace([], []);
      assert [] + [] == core;
    } else {
      assert lead + core + tail == lead + (core + tail);
      assert (core + tail)[0] == core[0];
      DropLeadingSpace(lead, core + tail);
      DropTrailingSpace(core, tail);
    }
  }
}
