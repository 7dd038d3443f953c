/** `String.prototype.trim` as the front end uses it to clean the text typed
    into the task input: every leading and trailing character that ECMAScript
    counts as WhiteSpace or LineTerminator is removed.
 */
module JsString {

  /** ECMAScript WhiteSpace (TAB, VT, FF, SPACE, NBSP, ZWNBSP and the Unicode
      space separators) and LineTerminator (LF, CR, LS, PS). */
  predicate IsWhitespace(c: char)
  {
    var n := c as int;
    || n == 0x09 || n == 0x0A || n == 0x0B || n == 0x0C || n == 0x0D
    || n == 0x20 || n == 0xA0 || n == 0x1680
    || (0x2000 <= n <= 0x200A)
    || n == 0x2028 || n == 0x2029 || n == 0x202F || n == 0x205F
    || n == 0x3000 || n == 0xFEFF
  }

  predicate AllWhitespace(s: string)
  {
    forall k :: 0 <= k < |s| ==> IsWhitespace(s[k])
  }

  /** Number of whitespace characters at the start of `s`. */
  function LeadingWhitespace(s: string): (n: nat)
    ensures n <= |s|
    ensures AllWhitespace(s[..n])
    ensures n < |s| ==> !IsWhitespace(s[n])
  {
    if |s| == 0 || !IsWhitespace(s[0]) then 0
    else
      var m := LeadingWhitespace(s[1..]);
      assert s[1..][..m] == s[1..m + 1];
      1 + m
  }

  /** Index where the whitespace at the end of `s` begins. */
  function TrailingWhitespace(s: string): (n: nat)
    ensures n <= |s|
    ensures AllWhitespace(s[n..])
    ensures n > 0 ==> !IsWhitespace(s[n - 1])
  {
    if |s| == 0 || !IsWhitespace(s[|s| - 1]) then |s|
    else
      var init := s[..|s| - 1];
      var m := TrailingWhitespace(init);
      assert AllWhitespace(s[m..]) by {
        forall k | 0 <= k < |s| - m
          ensures IsWhitespace(s[m..][k])
        {
          if k < |s| - 1 - m {
            assert s[m..][k] == init[m..][k];
          }
        }
      }
      assert m > 0 ==> s[m - 1] == init[m - 1];
      m
  }

  /** `r` is the slice `s[i..j]`, with only whitespace before and after it
      in `s` and no whitespace at either of its own ends. */
  predicate TrimAt(r: string, s: string, i: int, j: int)
  {
    && 0 <= i <= j <= |s|
    && r == s[i..j]
    && AllWhitespace(s[..i])
    && AllWhitespace(s[j..])
    && (|r| > 0 ==> !IsWhitespace(r[0]) && !IsWhitespace(r[|r| - 1]))
  }

  /** `r` is `s` with its leading and trailing whitespace cut off. */
  ghost predicate IsTrimOf(r: string, s: string)
  {
    exists i, j :: TrimAt(r, s, i, j)
  }

  function Trim(s: string): (r: string)
    ensures IsTrimOf(r, s)
    ensures r == [] <==> AllWhitespace(s)
  {
    var i := LeadingWhitespace(s);
    if i == |s| then
      assert s[..i] == s;
      assert TrimAt([], s, i, i) by {
        assert s[i..i] == [] && s[i..] == [];
      }
      []
    else
      var j := TrailingWhitespace(s);
      assert i < j;
      var r := s[i..j];
      assert r[0] == s[i] && r[|r| - 1] == s[j - 1];
      assert TrimAt(r, s, i, j);
      assert !AllWhitespace(s) by {
        assert !IsWhitespace(s[i]);
      }
      r
  }

  /** `IsTrimOf` admits a single answer, so it is a complete specification of
      trimming. */
  lemma TrimOfUnique(r: string, r': string, s: string)
    requires IsTrimOf(r, s) && IsTrimOf(r', s)
    ensures r == r'
  {
    var i, j :| TrimAt(r, s, i, j);
    var i', j' :| TrimAt(r', s, i', j');
    SliceAnswer(s, i, j, i', j');
  }

  /** Helper for `TrimOfUnique`: a non-empty trimmed slice pins down both of
      its ends, and an empty one forces every other candidate to be empty. */
  lemma SliceAnswer(s: string, i: int, j: int, i': int, j': int)
    requires 0 <= i <= j <= |s| && 0 <= i' <= j' <= |s|
    requires AllWhitespace(s[..i]) && AllWhitespace(s[j..])
    requires AllWhitespace(s[..i']) && AllWhitespace(s[j'..])
    requires i < j ==> !IsWhitespace(s[i]) && !IsWhitespace(s[j - 1])
    requires i' < j' ==> !IsWhitespace(s[i']) && !IsWhitespace(s[j' - 1])
    ensures s[i..j] == s[i'..j']
  {
    WhitespaceOutside(s, i, j);
    WhitespaceOutside(s, i', j');
  }

  /** The prefix and suffix facts of a trim, restated about `s` itself. */
  lemma WhitespaceOutside(s: string, i: int, j: int)
    requires 0 <= i <= j <= |s|
    requires AllWhitespace(s[..i]) && AllWhitespace(s[j..])
    ensures forall k :: 0 <= k < i ==> IsWhitespace(s[k])
    ensures forall k :: j <= k < |s| ==> IsWhitespace(s[k])
  {
    forall k | 0 <= k < i
      ensures IsWhitespace(s[k])
    {
      assert s[..i][k] == s[k];
    }
    forall k | j <= k < |s|
      ensures IsWhitespace(s[k])
    {
      assert s[j..][k - j] == s[k];
    }
  }

  /** Trimming an already trimmed string changes nothing. */
  lemma TrimIdempotent(s: string)
    ensures Trim(Trim(s)) == Trim(s)
  {
    var r := Trim(s);
    assert TrimAt(r, r, 0, |r|) by {
      assert r[0..|r|] == r && r[..0] == [] && r[|r|..] == [];
    }
    TrimOfUnique(Trim(r), r, r);
  }
}
