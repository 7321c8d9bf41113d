/**
  The string operations the leaderboard search uses: `trim`, lower-casing and
  `includes`. Addresses are base58 text, so lower-casing is modelled on ASCII
  letters only.
 */
module Text {

  /** The characters `String.prototype.trim` removes: ECMAScript white space and line terminators. */
  predicate IsTrimmable(c: char)
  {
    var n := c as int;
    || n == 0x09 || n == 0x0A || n == 0x0B || n == 0x0C || n == 0x0D || n == 0x20
    || n == 0xA0 || n == 0x1680 || (0x2000 <= n <= 0x200A)
    || n == 0x2028 || n == 0x2029 || n == 0x202F || n == 0x205F || n == 0x3000 || n == 0xFEFF
  }

  /** `needle` occurs in `hay` as a contiguous run (always true of the empty needle). */
  predicate Contains(hay: string, needle: string)
  {
    exists i | 0 <= i <= |hay| :: OccursAt(hay, needle, i)
  }

  /** `needle` occurs in `hay` starting at position `i`. */
  predicate OccursAt(hay: string, needle: string, i: int)
  {
    0 <= i <= |hay| - |needle| && hay[i..i + |needle|] == needle
  }

  /** How many trimmable characters start `s`. */
  function LeadingCount(s: string): (n: nat)
    ensures n <= |s|
    ensures forall k :: 0 <= k < n ==> IsTrimmable(s[k])
    ensures n < |s| ==> !IsTrimmable(s[n])
  {
    if s == [] || !IsTrimmable(s[0]) then 0 else 1 + LeadingCount(s[1..])
  }

  /** Where the run of trimmable characters that ends `s` begins, not before `lo`. */
  function TrailingStart(s: string, lo: nat): (n: nat)
    requires lo <= |s|
    ensures lo <= n <= |s|
    ensures forall k :: n <= k < |s| ==> IsTrimmable(s[k])
    ensures n > lo ==> !IsTrimmable(s[n - 1])
    decreases |s| - lo
  {
    if lo == |s| then lo
    else if forall k :: lo <= k < |s| ==> IsTrimmable(s[k]) then lo
    else if IsTrimmable(s[|s| - 1]) then
      var n := TrailingStart(s[..|s| - 1], lo);
      n
    else |s|
  }

  /**
    `s` without its leading and trailing trimmable characters: a contiguous
    run of `s` with only trimmable characters around it, empty exactly when
    `s` is all trimmable, and otherwise starting and ending with a
    character that is kept.
   */
  function Trim(s: string): (r: string)
    ensures |r| <= |s|
    ensures exists i :: TrimmedAt(s, r, i)
    ensures r == [] <==> forall k :: 0 <= k < |s| ==> IsTrimmable(s[k])
    ensures r != [] ==> !IsTrimmable(r[0]) && !IsTrimmable(r[|r| - 1])
  {
    var i := LeadingCount(s);
    var j := TrailingStart(s, i);
    assert TrimmedAt(s, s[i..j], i);
    s[i..j]
  }

  /** `r` is the run of `s` at `i`, with only trimmable characters before and after it. */
  predicate TrimmedAt(s: string, r: string, i: int)
  {
    && OccursAt(s, r, i)
    && (forall k :: 0 <= k < i ==> IsTrimmable(s[k]))
    && (forall k :: i + |r| <= k < |s| ==> IsTrimmable(s[k]))
  }

  /** Upper-case ASCII letters become lower-case; every other character is kept. */
  function Lower(s: string): (r: string)
    ensures |r| == |s|
    ensures forall k :: 0 <= k < |s| ==> r[k] == (if 'A' <= s[k] <= 'Z' then (s[k] as int + 32) as char else s[k])
  {
    if s == [] then []
    else [if 'A' <= s[0] <= 'Z' then (s[0] as int + 32) as char else s[0]] + Lower(s[1..])
  }
}
