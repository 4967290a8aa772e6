/** The Python string operations the handler and the fun-fact fallback use:
    `str.strip()` on the query parameter and `str.join` on the digit terms. */
module Text {
  import opened Wrappers

  /** The characters for which Python's `str.isspace()` holds, the set that
      `str.strip()` with no argument removes. */
  predicate IsSpace(c: char)
    ensures c == ' ' || c == '\t' || c == '\n' || c == '\r' ==> IsSpace(c)
    ensures '0' <= c <= '9' || c == '-' || c == '.' ==> !IsSpace(c)
  {
    var k := c as int;
    || 9 <= k <= 13
    || 28 <= k <= 32
    || k == 0x85
    || k == 0xA0
    || k == 0x1680
    || 0x2000 <= k <= 0x200A
    || k == 0x2028
    || k == 0x2029
    || k == 0x202F
    || k == 0x205F
    || k == 0x3000
  }

  /** `s.lstrip()`: drops the leading whitespace and nothing else. */
  function TrimStart(s: string): (r: string)
    ensures |r| <= |s| && r == s[|s| - |r|..]
    ensures r == [] || !IsSpace(r[0])
    ensures forall i :: 0 <= i < |s| - |r| ==> IsSpace(s[i])
  {
    if |s| > 0 && IsSpace(s[0]) then TrimStart(s[1..]) else s
  }

  /** `s.rstrip()`: drops the trailing whitespace and nothing else. */
  function TrimEnd(s: string): (r: string)
    ensures |r| <= |s| && r == s[..|r|]
    ensures r == [] || !IsSpace(r[|r| - 1])
    ensures forall i :: |r| <= i < |s| ==> IsSpace(s[i])
  {
    if |s| > 0 && IsSpace(s[|s| - 1]) then TrimEnd(s[..|s| - 1]) else s
  }

  /** r is s with exactly the first a characters and some trailing
      characters cut away, all of them whitespace, and r neither starts nor
      ends with whitespace. */
  predicate IsStripOf(r: string, s: string, a: int)
  {
    && 0 <= a && a + |r| <= |s|
    && r == s[a..a + |r|]
    && (forall i :: 0 <= i < a ==> IsSpace(s[i]))
    && (forall i :: a + |r| <= i < |s| ==> IsSpace(s[i]))
    && (r == [] || (!IsSpace(r[0]) && !IsSpace(r[|r| - 1])))
  }

  /** `s.strip()`: the slice of s left after removing the leading and the
      trailing whitespace. The slice starts after the |s| - |TrimStart(s)|
      leading whitespace characters. */
  function Strip(s: string): (r: string)
    ensures IsStripOf(r, s, |s| - |TrimStart(s)|)
  {
    var t := TrimStart(s);
    var r := TrimEnd(t);
    StripFacts(s, t, r);
    r
  }

  /** A prefix r of a suffix t of s, with only whitespace cut away on either
      side and none left at either end, is a strip of s. */
  lemma StripFacts(s: string, t: string, r: string)
    requires |t| <= |s| && t == s[|s| - |t|..]
    requires forall i :: 0 <= i < |s| - |t| ==> IsSpace(s[i])
    requires t == [] || !IsSpace(t[0])
    requires |r| <= |t| && r == t[..|r|]
    requires forall i :: |r| <= i < |t| ==> IsSpace(t[i])
    requires r == [] || !IsSpace(r[|r| - 1])
    ensures IsStripOf(r, s, |s| - |t|)
  {
    var a := |s| - |t|;
    assert r == s[a..a + |r|];
    forall i | a + |r| <= i < |s|
      ensures IsSpace(s[i])
    {
      assert s[i] == t[i - a];
    }
    if r != [] {
      assert r[0] == t[0];
    }
  }

  /** Stripping leaves nothing exactly when every character is whitespace. */
  lemma StripEmptyIffAllSpace(s: string)
    ensures Strip(s) == [] <==> forall i :: 0 <= i < |s| ==> IsSpace(s[i])
  {
  }

  /** `sep.join(parts)`: the first part opens the result, and when there is
      a second part the separator comes right after the first. */
  function Join(parts: seq<string>, sep: string): (r: string)
    ensures |parts| >= 1 ==> |parts[0]| <= |r| && r[..|parts[0]|] == parts[0]
    ensures |parts| >= 2 ==>
              |parts[0]| + |sep| <= |r| && r[|parts[0]|..|parts[0]| + |sep|] == sep
  {
    if |parts| == 0 then ""
    else if |parts| == 1 then parts[0]
    else parts[0] + sep + Join(parts[1..], sep)
  }

  /** Splits a `" + "`-joined string whose parts all have width w back into
      its parts; None when the string is not of that shape. */
  function SplitTerms(s: string, w: nat): Option<seq<string>>
    requires w > 0
    decreases |s|
  {
    if |s| == w then Some([s])
    else if |s| > w + 3 && s[w..w + 3] == " + " then
      match SplitTerms(s[w + 3..], w)
      case None => None
      case Some(rest) => Some([s[..w]] + rest)
    else None
  }

  /** Joining undoes splitting: what splits into parts is their join. */
  lemma {:induction false} JoinSplitTerms(s: string, w: nat)
    requires w > 0 && SplitTerms(s, w).Some?
    ensures Join(SplitTerms(s, w).value, " + ") == s
    decreases |s|
  {
    if |s| != w {
      var rest := SplitTerms(s[w + 3..], w).value;
      JoinSplitTerms(s[w + 3..], w);
      assert SplitTerms(s, w).value == [s[..w]] + rest;
      assert ([s[..w]] + rest)[1..] == rest;
      assert s == s[..w] + " + " + s[w + 3..];
    }
  }

  /** Splitting undoes joining with `" + "` when every part has the same width. */
  lemma {:induction false} SplitJoinedTerms(parts: seq<string>, w: nat)
    requires w > 0 && |parts| >= 1
    requires forall i :: 0 <= i < |parts| ==> |parts[i]| == w
    ensures SplitTerms(Join(parts, " + "), w) == Some(parts)
  {
    if |parts| == 1 {
      assert parts == [parts[0]];
    } else {
      var rest := parts[1..];
      var tail := Join(rest, " + ");
      SplitJoinedTerms(rest, w);
      var s := Join(parts, " + ");
      assert s == parts[0] + " + " + tail;
      assert s[..w] == parts[0];
      assert s[w..w + 3] == " + ";
      assert s[w + 3..] == tail;
      assert parts == [parts[0]] + rest;
    }
  }
}
