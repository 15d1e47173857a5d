/**
 * The parts of the C string library the core relies on: `strstr` and the
 * view of a NUL-terminated character buffer as a string.  A C string is
 * modelled by the sequence of its characters before the terminating NUL.
 */
module CString {
  import opened Wrappers

  /** `pattern` occurs in `s` starting at index `i`. */
  predicate OccursAt(s: string, pattern: string, i: int) {
    0 <= i && i + |pattern| <= |s| && s[i..i + |pattern|] == pattern
  }

  /** An occurrence in the tail of `s` is an occurrence in `s`, one index later. */
  lemma OccursInTail(s: string, pattern: string, i: nat)
    requires |s| > 0
    ensures OccursAt(s[1..], pattern, i) <==> OccursAt(s, pattern, i + 1)
  {
    if 0 <= i && i + |pattern| <= |s| - 1 {
      assert s[1..][i..i + |pattern|] == s[i + 1..i + 1 + |pattern|];
    }
  }

  /**
   * `strstr(s, pattern)`: the index of the first occurrence of `pattern`
   * in `s`, or None where the C function returns a null pointer.
   */
  function FindFirst(s: string, pattern: string): (r: Option<nat>)
    ensures r.Some? ==> OccursAt(s, pattern, r.value)
    ensures r.Some? ==> forall j :: 0 <= j < r.value ==> !OccursAt(s, pattern, j)
    ensures r.None? ==> forall j :: !OccursAt(s, pattern, j)
    decreases |s|
  {
    if |pattern| <= |s| && s[..|pattern|] == pattern then
      Some(0)
    else if |s| <= |pattern| then
      None
    else
      var tail := FindFirst(s[1..], pattern);
      assert forall k :: 1 <= k ==> (OccursAt(s, pattern, k) <==> OccursAt(s[1..], pattern, k - 1)) by {
        forall k | 1 <= k
          ensures OccursAt(s, pattern, k) <==> OccursAt(s[1..], pattern, k - 1)
        {
          OccursInTail(s, pattern, k - 1);
        }
      }
      assert !OccursAt(s, pattern, 0);
      match tail
      case None => None
      case Some(i) => Some(i + 1)
  }

  /** An occurrence with none before it is the one `strstr` finds. */
  lemma FindFirstAt(s: string, pattern: string, i: nat)
    requires OccursAt(s, pattern, i)
    requires forall j :: 0 <= j < i ==> !OccursAt(s, pattern, j)
    ensures FindFirst(s, pattern) == Some(i)
  {
  }

  /** `strstr(s, pattern) != nullptr`. */
  function Contains(s: string, pattern: string): (found: bool)
    ensures found <==> exists i :: OccursAt(s, pattern, i)
  {
    FindFirst(s, pattern).Some?
  }

  /** A match survives any text written before and after it. */
  lemma {:induction false} ContainsInContext(before: string, s: string, after: string, pattern: string)
    requires Contains(s, pattern)
    ensures Contains(before + s + after, pattern)
  {
    var i :| OccursAt(s, pattern, i);
    var t := before + s + after;
    assert t[|before| + i..|before| + i + |pattern|] == s[i..i + |pattern|];
    assert OccursAt(t, pattern, |before| + i);
  }

  /**
   * The C string held in a character buffer: the characters before the
   * first NUL, or the whole buffer when it holds none.
   */
  function CStringOf(buffer: seq<char>): (s: string)
    ensures |s| <= |buffer| && s == buffer[..|s|]
    ensures '\0' !in s
    ensures |s| < |buffer| ==> buffer[|s|] == '\0'
  {
    if buffer == [] || buffer[0] == '\0' then []
    else [buffer[0]] + CStringOf(buffer[1..])
  }

  /** A buffer holding `s` followed by a NUL reads back as `s`, whatever follows. */
  lemma {:induction false} CStringOfTerminated(s: string, rest: seq<char>)
    requires '\0' !in s
    ensures CStringOf(s + ['\0'] + rest) == s
  {
    if s != [] {
      assert (s + ['\0'] + rest)[1..] == s[1..] + ['\0'] + rest;
      CStringOfTerminated(s[1..], rest);
    }
  }
}
