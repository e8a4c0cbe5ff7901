/**
 * The members of `std::wstring` the program relies on. A search that the C++
 * library answers with `npos` answers None here; where the program does
 * arithmetic on such an answer, `SizeOf` gives back the `size_t` value of
 * `npos` and `SizeAdd`/`SizeSub` wrap modulo 2^64 as `size_t` does.
 */
module WString {
  import opened Wrappers

  const SIZE_MODULUS: nat := 0x1_0000_0000_0000_0000
  const NPOS: nat := 0xFFFF_FFFF_FFFF_FFFF

  function SizeOf(p: Option<nat>): nat {
    p.GetOr(NPOS)
  }

  /** `size_t` addition: wraps modulo 2^64. */
  function SizeAdd(a: nat, b: nat): nat {
    if a + b < SIZE_MODULUS then a + b else (a + b) % SIZE_MODULUS
  }

  /** `size_t` subtraction: wraps modulo 2^64. */
  function SizeSub(a: int, b: int): nat {
    if 0 <= a - b < SIZE_MODULUS then a - b else (a - b) % SIZE_MODULUS
  }

  predicate MatchAt(s: string, pat: string, p: nat) {
    p + |pat| <= |s| && forall j :: 0 <= j < |pat| ==> s[p + j] == pat[j]
  }

  /**
   * `s.find(pat, from)`: the first position at or after `from` where `pat`
   * occurs. What a match means is stated by FindIsFirstMatch, kept apart so
   * that callers reading many fields do not carry it along.
   */
  function Find(s: string, pat: string, from: nat): (r: Option<nat>)
    ensures r.Some? ==> from <= r.value && r.value + |pat| <= |s|
    decreases |s| - from
  {
    if from + |pat| > |s| then None
    else if MatchAt(s, pat, from) then Some(from)
    else Find(s, pat, from + 1)
  }

  lemma {:induction false} FindIsFirstMatch(s: string, pat: string, from: nat)
    ensures Find(s, pat, from).Some? ==> MatchAt(s, pat, Find(s, pat, from).value)
    ensures Find(s, pat, from).Some? ==> forall q :: from <= q < Find(s, pat, from).value ==> !MatchAt(s, pat, q)
    ensures Find(s, pat, from).None? ==> forall q :: from <= q ==> !MatchAt(s, pat, q)
    decreases |s| - from
  {
    if from + |pat| <= |s| && !MatchAt(s, pat, from) {
      FindIsFirstMatch(s, pat, from + 1);
    }
  }

  /** A match at `q` with none before it from `from` on is what Find returns. */
  lemma {:induction false} FindReturnsFirst(s: string, pat: string, from: nat, q: nat)
    requires from <= q && MatchAt(s, pat, q)
    requires forall p :: from <= p < q ==> !MatchAt(s, pat, p)
    ensures Find(s, pat, from) == Some(q)
    decreases q - from
  {
    if from < q {
      FindReturnsFirst(s, pat, from + 1, q);
    }
  }

  /** `s.find_first_of(chars, from)`. */
  function FindFirstOf(s: string, chars: string, from: nat): (r: Option<nat>)
    ensures r.Some? ==> from <= r.value < |s|
    decreases |s| - from
  {
    if from >= |s| then None
    else if s[from] in chars then Some(from)
    else FindFirstOf(s, chars, from + 1)
  }

  lemma {:induction false} FindFirstOfIsFirst(s: string, chars: string, from: nat)
    ensures FindFirstOf(s, chars, from).Some? ==> s[FindFirstOf(s, chars, from).value] in chars
    ensures FindFirstOf(s, chars, from).Some? ==> forall q :: from <= q < FindFirstOf(s, chars, from).value ==> s[q] !in chars
    ensures FindFirstOf(s, chars, from).None? ==> forall q :: from <= q < |s| ==> s[q] !in chars
    decreases |s| - from
  {
    if from < |s| && s[from] !in chars {
      FindFirstOfIsFirst(s, chars, from + 1);
    }
  }

  /** `s.find_first_not_of(chars, from)`. */
  function FindFirstNotOf(s: string, chars: string, from: nat): (r: Option<nat>)
    ensures r.Some? ==> from <= r.value < |s|
    decreases |s| - from
  {
    if from >= |s| then None
    else if s[from] !in chars then Some(from)
    else FindFirstNotOf(s, chars, from + 1)
  }

  lemma {:induction false} FindFirstNotOfIsFirst(s: string, chars: string, from: nat)
    ensures FindFirstNotOf(s, chars, from).Some? ==> s[FindFirstNotOf(s, chars, from).value] !in chars
    ensures FindFirstNotOf(s, chars, from).Some? ==> forall q :: from <= q < FindFirstNotOf(s, chars, from).value ==> s[q] in chars
    ensures FindFirstNotOf(s, chars, from).None? ==> forall q :: from <= q < |s| ==> s[q] in chars
    decreases |s| - from
  {
    if from < |s| && s[from] in chars {
      FindFirstNotOfIsFirst(s, chars, from + 1);
    }
  }

  /** `s.find_last_of(chars)` restricted to the first `n` characters. */
  function FindLastOf(s: string, chars: string, n: nat): (r: Option<nat>)
    requires n <= |s|
    ensures r.Some? ==> r.value < n && s[r.value] in chars
    ensures r.Some? ==> forall q :: r.value < q < n ==> s[q] !in chars
    ensures r.None? ==> forall q :: 0 <= q < n ==> s[q] !in chars
  {
    if n == 0 then None
    else if s[n - 1] in chars then Some(n - 1)
    else FindLastOf(s, chars, n - 1)
  }

  /** `s.substr(pos, count)`; the library throws `out_of_range` when `pos > size()`. */
  function Substr(s: string, pos: nat, count: nat): (r: string)
    requires pos <= |s|
    ensures |r| <= count && pos + |r| <= |s| && r == s[pos..pos + |r|]
    ensures |r| == count || pos + |r| == |s|
  {
    if count <= |s| - pos then s[pos..pos + count] else s[pos..]
  }
}
