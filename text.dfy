/**
 * The JavaScript string operations the extension relies on: `startsWith`,
 * `includes`, and the whitespace class `\s` of ECMAScript regular expressions.
 * Strings are sequences of Unicode scalar values.
 */
module Text {
  import opened Wrappers

  /** `s.startsWith(prefix)`: the prefix occurs at position 0, and so `s.includes(prefix)` holds too. */
  predicate StartsWith(s: string, prefix: string)
    ensures StartsWith(s, prefix) ==> Contains(s, prefix)
  {
    |prefix| <= |s| && s[..|prefix|] == prefix
  }

  /** `sub` occurs in `s` at position `i`. */
  predicate OccursAt(s: string, sub: string, i: int) {
    0 <= i && i + |sub| <= |s| && s[i..i + |sub|] == sub
  }

  /** `s.includes(sub)`: true iff `sub` occurs somewhere in `s`. */
  function Contains(s: string, sub: string): (r: bool)
    ensures r <==> exists i :: OccursAt(s, sub, i)
    decreases |s|
  {
    if |sub| > |s| then false
    else if s[..|sub|] == sub then
      assert OccursAt(s, sub, 0);
      true
    else
      var r := Contains(s[1..], sub);
      assert forall i :: OccursAt(s[1..], sub, i) <==> OccursAt(s, sub, i + 1) by {
        forall i ensures OccursAt(s[1..], sub, i) <==> OccursAt(s, sub, i + 1) {
          if 0 <= i && i + |sub| <= |s[1..]| {
            assert s[1..][i..i + |sub|] == s[i + 1..i + 1 + |sub|];
          }
        }
      }
      assert !OccursAt(s, sub, 0);
      assert forall i :: OccursAt(s, sub, i) ==> i == 0 || OccursAt(s[1..], sub, i - 1);
      r
  }

  lemma {:induction false} ContainsSelfSuffix(prefix: string, s: string)
    ensures Contains(prefix + s, s)
  {
    assert OccursAt(prefix + s, s, |prefix|) by {
      assert (prefix + s)[|prefix|..|prefix| + |s|] == s;
    }
  }

  /**
   * The ECMAScript `\s` class: the WhiteSpace code points (TAB, VT, FF, SP,
   * NBSP, ZWNBSP and the Unicode category Zs) and the LineTerminator code
   * points (LF, CR, LS, PS). ASCII letters, digits and `-` are not in it.
   */
  predicate IsSpace(c: char)
    ensures (0x09 <= c as int <= 0x0D || c == ' ') ==> IsSpace(c)
    ensures (c == '-' || 'A' <= c <= 'Z' || 'a' <= c <= 'z' || '0' <= c <= '9') ==> !IsSpace(c)
  {
    var n := c as int;
    n == 0x09 || n == 0x0A || n == 0x0B || n == 0x0C || n == 0x0D || n == 0x20
    || n == 0xA0 || n == 0x1680 || (0x2000 <= n <= 0x200A) || n == 0x2028 || n == 0x2029
    || n == 0x202F || n == 0x205F || n == 0x3000 || n == 0xFEFF
  }

  /** Length of the longest run of `\s` characters at the start of `t` (what a greedy `\s*` consumes). */
  function SpaceRun(t: string): (n: nat)
    ensures n <= |t|
  {
    if t == [] || !IsSpace(t[0]) then 0 else 1 + SpaceRun(t[1..])
  }

  /** The run `SpaceRun` measures is all spaces, and the character after it is not one. */
  lemma {:induction false} SpaceRunIsMaximal(t: string)
    ensures forall i :: 0 <= i < SpaceRun(t) ==> IsSpace(t[i])
    ensures SpaceRun(t) == |t| || !IsSpace(t[SpaceRun(t)])
  {
    if t != [] && IsSpace(t[0]) {
      SpaceRunIsMaximal(t[1..]);
      forall i | 0 < i < SpaceRun(t) ensures IsSpace(t[i]) {
        assert t[i] == t[1..][i - 1];
      }
    }
  }

  /**
   * `t[..n]` is `Mix`, a run of spaces, the `-` at `k` and a run of spaces
   * that `\s*` cannot extend.
   */
  predicate MixShape(t: string, k: int, n: int) {
    && 3 <= k < n <= |t| && t[k] == '-'
    && (forall j :: 3 <= j < k ==> IsSpace(t[j]))
    && (forall j :: k < j < n ==> IsSpace(t[j]))
    && (n == |t| || !IsSpace(t[n]))
  }

  /**
   * Length of the match of `Mix\s*-\s*` at the very start of `t`, or None
   * when the pattern does not match there. Both runs of `\s*` are greedy;
   * backtracking the first one cannot help, since a shorter run is followed
   * by a space and not by `-`.
   */
  function MixMatchLength(t: string): (r: Option<nat>)
    ensures r.Some? ==> 4 <= r.value <= |t|
  {
    if !StartsWith(t, "Mix") then None
    else
      var k := 3 + SpaceRun(t[3..]);
      if k < |t| && t[k] == '-' then Some(k + 1 + SpaceRun(t[k + 1..])) else None
  }

  /**
   * `MixMatchLength` finds a match exactly when `t` starts with a match, and
   * the match it finds is the only one starting there.
   */
  lemma MixMatchLengthIsMatch(t: string)
    ensures MixMatchLength(t).Some? ==> StartsWith(t, "Mix") && MixShape(t, 3 + SpaceRun(t[3..]), MixMatchLength(t).value)
    ensures forall k, n :: StartsWith(t, "Mix") && MixShape(t, k, n) ==> MixMatchLength(t) == Some(n)
  {
    if StartsWith(t, "Mix") {
      var k := 3 + SpaceRun(t[3..]);
      SpaceRunIsMaximal(t[3..]);
      forall j | 3 <= j < k ensures IsSpace(t[j]) {
        assert t[3..][j - 3] == t[j];
      }
      assert k < |t| ==> !IsSpace(t[k]) by {
        if k < |t| {
          assert t[3..][k - 3] == t[k];
        }
      }
      assert !IsSpace('-');
      if k < |t| && t[k] == '-' {
        var n := k + 1 + SpaceRun(t[k + 1..]);
        SpaceRunIsMaximal(t[k + 1..]);
        forall j | k < j < n ensures IsSpace(t[j]) {
          assert t[k + 1..][j - (k + 1)] == t[j];
        }
        assert n < |t| ==> t[k + 1..][n - (k + 1)] == t[n];
        assert MixShape(t, k, n);
        forall k', n' | MixShape(t, k', n') ensures MixMatchLength(t) == Some(n') {
          assert k' == k;
          assert n' == n;
        }
      } else {
        assert forall k', n' :: !MixShape(t, k', n');
      }
    }
  }

  /** `Mix\s*-\s*` matches at position `i` of `s`. */
  predicate MixAt(s: string, i: int) {
    0 <= i <= |s| && MixMatchLength(s[i..]).Some?
  }

  /** `i` is the leftmost position where `Mix\s*-\s*` matches. */
  predicate FirstMixAt(s: string, i: int) {
    MixAt(s, i) && forall j :: 0 <= j < i ==> !MixAt(s, j)
  }

  /** Dropping the first character shifts every match position down by one. */
  lemma MixAtShift(s: string)
    requires s != []
    ensures forall i :: 0 < i ==> (MixAt(s, i) <==> MixAt(s[1..], i - 1))
  {
    forall i | 0 < i ensures MixAt(s, i) <==> MixAt(s[1..], i - 1) {
      if i <= |s| {
        assert s[1..][i - 1..] == s[i..];
      }
    }
  }

  /** The leftmost position where `Mix\s*-\s*` matches, or None when it matches nowhere. */
  function FirstMix(s: string): (r: Option<nat>)
    ensures r.None? <==> forall i :: !MixAt(s, i)
    ensures r.Some? ==> FirstMixAt(s, r.value)
    decreases |s|
  {
    assert s[0..] == s;
    if MixMatchLength(s).Some? then
      assert MixAt(s, 0);
      Some(0)
    else if s == [] then
      assert forall i :: MixAt(s, i) ==> i == 0;
      None
    else
      var r := FirstMix(s[1..]);
      MixAtShift(s);
      assert !MixAt(s, 0);
      if r.None? then None
      else
        var i := r.value + 1;
        assert MixAt(s, i);
        assert FirstMixAt(s, i);
        Some(i)
  }

  /**
   * `s.replace` with the pattern `Mix\s*-\s*` and an empty replacement:
   * removes the leftmost match, and nothing else; without a match `s` is
   * returned unchanged.
   */
  function ReplaceFirstMix(s: string): (r: string)
    ensures (forall i :: !MixAt(s, i)) ==> r == s
    ensures |r| <= |s|
  {
    match FirstMix(s)
    case None => s
    case Some(i) => s[..i] + s[i + MixMatchLength(s[i..]).value..]
  }

  /** When the leftmost match starts at `i`, exactly that match is cut out, which shortens `s` by at least 4. */
  lemma ReplaceFirstMixCutsLeftmost(s: string, i: int)
    requires FirstMixAt(s, i)
    ensures ReplaceFirstMix(s) == s[..i] + s[i + MixMatchLength(s[i..]).value..]
    ensures |ReplaceFirstMix(s)| <= |s| - 4
  {
    FirstMixIsUnique(s, i);
  }

  /** There is only one leftmost match. */
  lemma FirstMixIsUnique(s: string, i: int)
    requires FirstMixAt(s, i)
    ensures FirstMix(s) == Some(i)
  {
  }

  /** Where `Mix -` occurs, the pattern `Mix\s*-\s*` matches. */
  lemma MixDashIsMatch(t: string, i: int)
    requires OccursAt(t, "Mix -", i)
    ensures MixAt(t, i)
  {
    var u := t[i..];
    assert u[..5] == t[i..i + 5] == "Mix -";
    assert u[..3] == "Mix";
    assert u[3..][0] == ' ' && IsSpace(' ');
    assert u[3..][1..][0] == '-' && !IsSpace('-');
    assert SpaceRun(u[3..]) == 1;
  }

  /** A title holding `Mix -` loses at least four characters to the replacement. */
  lemma ReplaceFirstMixShortens(t: string)
    requires Contains(t, "Mix -")
    ensures |ReplaceFirstMix(t)| <= |t| - 4
  {
    var i :| OccursAt(t, "Mix -", i);
    MixDashIsMatch(t, i);
    ReplaceFirstMixCutsLeftmost(t, FirstMix(t).value);
  }

  /**
   * `Mix`, spaces, `-` and spaces at the front are removed entirely: for
   * instance `Mix - Some Song` becomes `Some Song`.
   */
  lemma ReplaceFirstMixStripsPrefix(before: string, after: string, rest: string)
    requires forall j :: 0 <= j < |before| ==> IsSpace(before[j])
    requires forall j :: 0 <= j < |after| ==> IsSpace(after[j])
    requires rest == [] || !IsSpace(rest[0])
    ensures ReplaceFirstMix("Mix" + before + "-" + after + rest) == rest
  {
    var t := "Mix" + before + "-" + after + rest;
    var k := 3 + |before|;
    var n := k + 1 + |after|;
    assert t[..3] == "Mix";
    assert t[n..] == rest;
    forall j | 3 <= j < k ensures IsSpace(t[j]) {
      assert t[j] == before[j - 3];
    }
    forall j | k < j < n ensures IsSpace(t[j]) {
      assert t[j] == after[j - k - 1];
    }
    assert t[k] == '-';
    assert n < |t| ==> t[n] == rest[0];
    assert MixShape(t, k, n);
    MixMatchLengthIsMatch(t);
    assert t[0..] == t;
    assert FirstMixAt(t, 0);
    ReplaceFirstMixCutsLeftmost(t, 0);
    assert t[..0] + t[n..] == rest;
  }
}
