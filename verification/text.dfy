/** The few Python string operations the renderer relies on, over `seq<char>`. */
module Text {
  import opened Wrappers

  /** Python truthiness of an optional string: present and non-empty. */
  predicate Truthy(s: Option<string>) {
    s.Some? && |s.value| > 0
  }

  /** `str(x)` of an optional string: `None` prints as "None". */
  function PyStr(s: Option<string>): string {
    if s.Some? then s.value else "None"
  }

  predicate IsPrefix(p: string, s: string) {
    |p| <= |s| && s[..|p|] == p
  }

  /** Python's `sub in s` for two strings, scanning `s` from the left. */
  predicate Contains(s: string, sub: string)
    decreases |s|
  {
    IsPrefix(sub, s) || (|s| > 0 && Contains(s[1..], sub))
  }

  /** Reference reading of `sub in s`: `sub` occurs at position `i` of `s`. */
  ghost predicate OccursAt(s: string, sub: string, i: int) {
    0 <= i && i + |sub| <= |s| && s[i..i + |sub|] == sub
  }

  /** The scan agrees with the positional definition of a substring. */
  lemma {:induction false} ContainsIffOccurs(s: string, sub: string)
    ensures Contains(s, sub) <==> exists i :: OccursAt(s, sub, i)
    decreases |s|
  {
    if IsPrefix(sub, s) {
      assert OccursAt(s, sub, 0);
    } else if |s| > 0 {
      ContainsIffOccurs(s[1..], sub);
      if Contains(s[1..], sub) {
        var i :| OccursAt(s[1..], sub, i);
        assert s[1..][i..i + |sub|] == s[i + 1..i + 1 + |sub|];
        assert OccursAt(s, sub, i + 1);
      } else {
        forall i | OccursAt(s, sub, i) ensures false {
          if i > 0 {
            var t := s[1..];
            assert |t| == |s| - 1 && i - 1 + |sub| <= |t|;
            assert t[i - 1..i - 1 + |sub|] == s[i..i + |sub|] == sub;
            assert OccursAt(t, sub, i - 1);
          }
        }
      }
    }
  }

  /** A string that never holds the first character of `sub` does not contain `sub`. */
  lemma NotContainsWithoutHead(s: string, sub: string)
    requires |sub| > 0 && sub[0] !in s
    ensures !Contains(s, sub)
  {
    ContainsIffOccurs(s, sub);
  }

  /** Python's `str.isspace` for one character, the set `str.strip()` removes. */
  predicate IsSpace(c: char) {
    var n := c as int;
    || 9 <= n <= 13 || 28 <= n <= 32 || n == 0x85 || n == 0xA0 || n == 0x1680
    || 0x2000 <= n <= 0x200A || n == 0x2028 || n == 0x2029 || n == 0x202F
    || n == 0x205F || n == 0x3000
  }

  /** Drops the leading whitespace of `s`. */
  function TrimStart(s: string): (r: string)
    ensures |r| <= |s| && r == s[|s| - |r|..]
    ensures forall k :: 0 <= k < |s| - |r| ==> IsSpace(s[k])
    ensures |r| > 0 ==> !IsSpace(r[0])
    decreases |s|
  {
    if |s| > 0 && IsSpace(s[0]) then TrimStart(s[1..]) else s
  }

  /** Drops the trailing whitespace of `s`. */
  function TrimEnd(s: string): (r: string)
    ensures |r| <= |s| && r == s[..|r|]
    ensures forall k :: |r| <= k < |s| ==> IsSpace(s[k])
    ensures |r| > 0 ==> !IsSpace(r[|r| - 1])
    decreases |s|
  {
    if |s| > 0 && IsSpace(s[|s| - 1]) then TrimEnd(s[..|s| - 1]) else s
  }

  /** Python's `s.strip()`: the slice `s[lo..hi]` that is left once the whitespace around it is cut. */
  function Strip(s: string): (r: string)
    ensures |r| > 0 ==> !IsSpace(r[0]) && !IsSpace(r[|r| - 1])
    ensures exists lo :: StrippedAt(s, r, lo)
  {
    var t := TrimStart(s);
    var r := TrimEnd(t);
    assert StrippedAt(s, r, |s| - |t|);
    r
  }

  /** Text without whitespace at either end is left as it is. */
  lemma StripKeepsTrimmed(s: string)
    requires |s| > 0 && !IsSpace(s[0]) && !IsSpace(s[|s| - 1])
    ensures Strip(s) == s
  {
    assert TrimStart(s) == s;
    assert TrimEnd(s) == s;
  }

  /** `r` is `s[lo..lo + |r|]` and everything of `s` outside that slice is whitespace. */
  ghost predicate StrippedAt(s: string, r: string, lo: int) {
    && 0 <= lo && lo + |r| <= |s|
    && r == s[lo..lo + |r|]
    && (forall k :: 0 <= k < lo ==> IsSpace(s[k]))
    && (forall k :: lo + |r| <= k < |s| ==> IsSpace(s[k]))
  }

  /** `s.split(c)[0]`: the text before the first `c`, or all of `s` when it has none. */
  function BeforeFirst(s: string, c: char): (r: string)
    ensures IsPrefix(r, s)
    ensures c !in r
    ensures |r| < |s| ==> s[|r|] == c
    decreases |s|
  {
    if |s| == 0 || s[0] == c then [] else [s[0]] + BeforeFirst(s[1..], c)
  }

  /** `s.rsplit(c, 1)[-1]`: the text after the last `c`, or all of `s` when it has none. */
  function AfterLast(s: string, c: char): (r: string)
    ensures |r| <= |s| && r == s[|s| - |r|..]
    ensures c !in r
    ensures |r| < |s| ==> s[|s| - |r| - 1] == c
    decreases |s|
  {
    if |s| == 0 || s[|s| - 1] == c then [] else AfterLast(s[..|s| - 1], c) + [s[|s| - 1]]
  }

  /** Splitting after the last separator recovers the part that follows it, whatever precedes it. */
  lemma AfterLastOfJoin(x: string, c: char, y: string)
    requires c !in y
    ensures AfterLast(x + [c] + y, c) == y
  {
    var s := x + [c] + y;
    var r := AfterLast(s, c);
    assert s[|x|] == c;
    assert s[|x| + 1..] == y;
  }
}
