/**
 * The string helpers of the `util` namespace (Cursach/Utils.cpp): the brace and
 * quote balance check run on a tasks file before it is parsed, JSON string
 * escaping and its inverse, and the file-name part of a path.
 */
module Utils {
  import opened Wrappers
  import opened WString

  // ---------------------------------------------------------------------------
  // The character scanner shared by IsValidJsonSimple and the record-block
  // scanner of the tasks file loader.
  // ---------------------------------------------------------------------------

  /** Brace depth, whether a quoted string is open, whether the next character is escaped. */
  datatype ScanState = ScanState(depth: int, inQuotes: bool, escape: bool)

  const Fresh := ScanState(0, false, false)

  /**
   * One character: an escaped character is skipped, a backslash escapes the next
   * one, a quote toggles the string state, and braces outside strings change the depth.
   */
  function ScanStep(st: ScanState, c: char): (r: ScanState)
    ensures !r.inQuotes && r.depth != st.depth ==> !st.escape && (c == '{' || c == '}')
    ensures r.inQuotes ==> r.depth == st.depth
  {
    if st.escape then st.(escape := false)
    else if c == '\\' then st.(escape := true)
    else
      var q := if c == '"' then !st.inQuotes else st.inQuotes;
      var d := if q then st.depth
               else if c == '{' then st.depth + 1
               else if c == '}' then st.depth - 1
               else st.depth;
      ScanState(d, q, false)
  }

  /** The scanner state after reading `s` from state `st`. */
  function ScanFrom(st: ScanState, s: string): ScanState
  {
    if s == [] then st else ScanStep(ScanFrom(st, s[..|s| - 1]), s[|s| - 1])
  }

  /**
   * What IsValidJsonSimple accepts: read from the start, ignoring characters in
   * quotes and characters after a backslash, the brace depth is never negative,
   * ends at zero, and no quote is left open.
   */
  predicate Balanced(s: string) {
    && (forall k :: 0 <= k <= |s| ==> ScanFrom(Fresh, s[..k]).depth >= 0)
    && !ScanFrom(Fresh, s).inQuotes
    && ScanFrom(Fresh, s).depth == 0
  }

  lemma ScanFromSnoc(st: ScanState, s: string, c: char)
    ensures ScanFrom(st, s + [c]) == ScanStep(ScanFrom(st, s), c)
  {
    assert (s + [c])[..|s + [c]| - 1] == s;
  }

  /** `util::IsValidJsonSimple`. */
  method IsValidJsonSimple(s: string) returns (ok: bool)
    ensures ok == Balanced(s)
  {
    var depth := 0;
    var inQuotes := false;
    var escape := false;
    var i := 0;
    while i < |s|
      invariant 0 <= i <= |s|
      invariant ScanState(depth, inQuotes, escape) == ScanFrom(Fresh, s[..i])
      invariant forall k :: 0 <= k <= i ==> ScanFrom(Fresh, s[..k]).depth >= 0
    {
      var c := s[i];
      ScanFromSnoc(Fresh, s[..i], c);
      assert s[..i + 1] == s[..i] + [c];
      i := i + 1;
      if escape {
        escape := false;
        continue;
      }
      if c == '\\' {
        escape := true;
        continue;
      }
      if c == '"' {
        inQuotes := !inQuotes;
      }
      if !inQuotes {
        if c == '{' {
          depth := depth + 1;
        } else if c == '}' {
          depth := depth - 1;
        }
        if depth < 0 {
          return false;
        }
      }
    }
    assert s[..|s|] == s;
    ok := !inQuotes && depth == 0;
  }

  lemma EmptyIsBalanced()
    ensures Balanced("")
  {
    assert ""[..0] == "";
  }

  // ---------------------------------------------------------------------------
  // EscapeJSON / UnescapeJSON
  // ---------------------------------------------------------------------------

  /** The characters EscapeJSON rewrites, each to a backslash and the character after it here. */
  predicate Special(c: char) {
    c == '\\' || c == '"' || c == '\n' || c == '\r' || c == '\t'
  }

  /** What EscapeJSON writes for one character. */
  function EscapeChar(c: char): (r: string)
    ensures Special(c) ==> |r| == 2 && r[0] == '\\'
    ensures !Special(c) ==> r == [c]
  {
    match c
    case '\\' => "\\\\"
    case '"' => "\\\""
    case '\n' => "\\n"
    case '\r' => "\\r"
    case '\t' => "\\t"
    case _ => [c]
  }

  /** The text EscapeJSON produces: each character replaced by its escape. */
  function Escape(s: string): (r: string)
    ensures |r| >= |s|
  {
    if s == [] then [] else Escape(s[..|s| - 1]) + EscapeChar(s[|s| - 1])
  }

  /** `util::EscapeJSON`. */
  method EscapeJSON(s: string) returns (out: string)
    ensures out == Escape(s)
  {
    out := "";
    var i := 0;
    while i < |s|
      invariant 0 <= i <= |s|
      invariant out == Escape(s[..i])
    {
      var c := s[i];
      assert s[..i + 1][..i] == s[..i];
      match c {
        case '\\' => out := out + "\\\\";
        case '"' => out := out + "\\\"";
        case '\n' => out := out + "\\n";
        case '\r' => out := out + "\\r";
        case '\t' => out := out + "\\t";
        case _ => out := out + [c];
      }
      i := i + 1;
    }
    assert s[..|s|] == s;
  }

  /** The output so far, and whether the last character read was an unconsumed backslash. */
  datatype Unescaping = Unescaping(out: string, escape: bool)

  /** What UnescapeJSON makes of the character after a backslash. */
  function Unescaped(c: char): char {
    match c
    case 'n' => '\n'
    case 'r' => '\r'
    case 't' => '\t'
    case _ => c
  }

  function UnescapeStep(u: Unescaping, c: char): Unescaping {
    if u.escape then Unescaping(u.out + [Unescaped(c)], false)
    else if c == '\\' then u.(escape := true)
    else Unescaping(u.out + [c], false)
  }

  function UnescapeRun(s: string): Unescaping {
    if s == [] then Unescaping("", false) else UnescapeStep(UnescapeRun(s[..|s| - 1]), s[|s| - 1])
  }

  /** The text UnescapeJSON produces. */
  function Unescape(s: string): string {
    UnescapeRun(s).out
  }

  /** `util::UnescapeJSON`. */
  method UnescapeJSON(s: string) returns (out: string)
    ensures out == Unescape(s)
  {
    out := "";
    var escape := false;
    var i := 0;
    while i < |s|
      invariant 0 <= i <= |s|
      invariant Unescaping(out, escape) == UnescapeRun(s[..i])
    {
      var c := s[i];
      assert s[..i + 1][..i] == s[..i];
      if escape {
        match c {
          case '\\' => out := out + ['\\'];
          case '"' => out := out + ['"'];
          case 'n' => out := out + ['\n'];
          case 'r' => out := out + ['\r'];
          case 't' => out := out + ['\t'];
          case _ => out := out + [c];
        }
        escape := false;
      } else if c == '\\' {
        escape := true;
      } else {
        out := out + [c];
      }
      i := i + 1;
    }
    assert s[..|s|] == s;
  }

  lemma UnescapeRunSnoc(s: string, c: char)
    ensures UnescapeRun(s + [c]) == UnescapeStep(UnescapeRun(s), c)
  {
    assert (s + [c])[..|s + [c]| - 1] == s;
  }

  /** The escape of a special character: a backslash, then a letter that unescapes to it. */
  lemma EscapePair(c: char)
    requires Special(c)
    ensures EscapeChar(c) == ['\\', EscapeChar(c)[1]] && Unescaped(EscapeChar(c)[1]) == c
  {
    if c == '\\' {
    } else if c == '"' {
    } else if c == '\n' {
    } else if c == '\r' {
    } else {
      assert c == '\t';
    }
  }

  /** Unescaping a backslash and then `x`, from a state with no backslash pending. */
  lemma UnescapeRunPair(p: string, o: string, x: char)
    requires UnescapeRun(p) == Unescaping(o, false)
    ensures UnescapeRun(p + ['\\', x]) == Unescaping(o + [Unescaped(x)], false)
  {
    UnescapeRunSnoc(p, '\\');
    assert p + ['\\', x] == (p + ['\\']) + [x];
    UnescapeRunSnoc(p + ['\\'], x);
  }

  /** Unescaping the escape of one character gives back that character. */
  lemma UnescapeEscapeChar(p: string, o: string, c: char)
    requires UnescapeRun(p) == Unescaping(o, false)
    ensures UnescapeRun(p + EscapeChar(c)) == Unescaping(o + [c], false)
  {
    if Special(c) {
      EscapePair(c);
      UnescapeRunPair(p, o, EscapeChar(c)[1]);
    } else {
      UnescapeRunSnoc(p, c);
    }
  }

  /** UnescapeJSON undoes EscapeJSON, and leaves no backslash pending. */
  lemma {:induction false} UnescapeEscapeRun(s: string)
    ensures UnescapeRun(Escape(s)) == Unescaping(s, false)
  {
    if s != [] {
      var init, c := s[..|s| - 1], s[|s| - 1];
      assert Escape(s) == Escape(init) + EscapeChar(c);
      UnescapeEscapeRun(init);
      UnescapeEscapeChar(Escape(init), init, c);
      assert init + [c] == s;
    }
  }

  lemma UnescapeEscape(s: string)
    ensures Unescape(Escape(s)) == s
  {
    UnescapeEscapeRun(s);
  }

  /** Any escape `\x` other than `\n`, `\r` and `\t` stands for `x` itself (`\\` and `\"` included). */
  lemma UnescapeUnknown(s: string, x: char)
    requires !UnescapeRun(s).escape
    requires x != 'n' && x != 'r' && x != 't'
    ensures Unescape(s + ['\\', x]) == Unescape(s) + [x]
  {
    UnescapeRunSnoc(s, '\\');
    assert s + ['\\', x] == (s + ['\\']) + [x];
    UnescapeRunSnoc(s + ['\\'], x);
  }

  /** A backslash at the very end produces nothing. */
  lemma UnescapeTrailingBackslash(s: string)
    requires !UnescapeRun(s).escape
    ensures Unescape(s + ['\\']) == Unescape(s)
    ensures UnescapeRun(s + ['\\']).escape
  {
    UnescapeRunSnoc(s, '\\');
  }

  /** A string without a quote escapes to a string without a quote. */
  lemma {:induction false} EscapeKeepsQuoteFree(s: string)
    requires '"' !in s
    ensures '"' !in Escape(s)
  {
    if s != [] {
      assert s[|s| - 1] in s;
      assert forall c :: c in s[..|s| - 1] ==> c in s;
      EscapeKeepsQuoteFree(s[..|s| - 1]);
    }
  }

  /** Text whose escape holds no backslash had nothing to escape: the escape is the text itself. */
  lemma {:induction false} EscapeWithoutBackslash(s: string)
    requires '\\' !in Escape(s)
    ensures Escape(s) == s
  {
    if s != [] {
      var init, c := s[..|s| - 1], s[|s| - 1];
      assert Escape(s) == Escape(init) + EscapeChar(c);
      NoBackslashSplit(Escape(init), EscapeChar(c));
      EscapeWithoutBackslash(init);
      assert init + [c] == s;
    }
  }

  /** Both parts of a text without a backslash are without one. */
  lemma NoBackslashSplit(a: string, b: string)
    requires '\\' !in a + b
    ensures '\\' !in a && '\\' !in b
  {
    forall i | 0 <= i < |a|
      ensures a[i] != '\\'
    {
      assert a[i] == (a + b)[i];
    }
    forall i | 0 <= i < |b|
      ensures b[i] != '\\'
    {
      assert b[i] == (a + b)[|a| + i];
    }
  }

  // ---------------------------------------------------------------------------
  // GetFileName
  // ---------------------------------------------------------------------------

  const SEPARATORS := "\\/"

  predicate IsSeparator(c: char) {
    c == '\\' || c == '/'
  }

  /**
   * `util::GetFileName`: the text after the last `\` or `/`, that is, the
   * longest suffix of `path` holding no separator.
   */
  function GetFileName(path: string): (r: string)
    ensures |r| <= |path| && r == path[|path| - |r|..]
    ensures forall i :: 0 <= i < |r| ==> !IsSeparator(r[i])
    ensures |r| < |path| ==> IsSeparator(path[|path| - |r| - 1])
  {
    if path == [] then []
    else
      match FindLastOf(path, SEPARATORS, |path|)
      case None => path
      case Some(pos) => path[pos + 1..]
  }
}
