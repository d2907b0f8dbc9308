/** String operations the page applies to field values and catalogue keys:
    String.prototype.trim, the regular-expression class \s,
    String.prototype.replace with a string pattern, and toUpperCase. */
module Text {
  import opened Seqs

  /** ECMAScript white space and line terminators. String.prototype.trim
      strips exactly these, and the regular-expression escape \s matches
      exactly these, so one predicate serves both. */
  predicate IsSpace(c: char)
  {
    || c == ' ' || c == '\t' || c == '\n' || c == '\r'
    || c == '\U{000B}' || c == '\U{000C}' || c == '\U{00A0}'
    || c == '\U{1680}' || ('\U{2000}' <= c <= '\U{200A}')
    || c == '\U{2028}' || c == '\U{2029}' || c == '\U{202F}'
    || c == '\U{205F}' || c == '\U{3000}' || c == '\U{FEFF}'
  }

  predicate AllSpace(s: string)
  {
    forall i :: 0 <= i < |s| ==> IsSpace(s[i])
  }

  /** s with its leading white space removed. */
  function TrimStart(s: string): string
  {
    if s != [] && IsSpace(s[0]) then TrimStart(s[1..]) else s
  }

  /** s with its trailing white space removed. */
  function TrimEnd(s: string): string
  {
    if s != [] && IsSpace(s[|s| - 1]) then TrimEnd(s[..|s| - 1]) else s
  }

  /** String.prototype.trim. */
  function Trim(s: string): string
  {
    TrimEnd(TrimStart(s))
  }

  /** TrimStart keeps a suffix of s that is empty or starts with a non-space,
      and everything it drops is white space. */
  lemma {:induction false} TrimStartSpec(s: string)
    ensures |TrimStart(s)| <= |s| && TrimStart(s) == s[|s| - |TrimStart(s)|..]
    ensures AllSpace(s[..|s| - |TrimStart(s)|])
    ensures TrimStart(s) == [] || !IsSpace(TrimStart(s)[0])
  {
    if s != [] && IsSpace(s[0]) {
      var r := TrimStart(s[1..]);
      TrimStartSpec(s[1..]);
      assert s[1..][..|s[1..]| - |r|] == s[1..|s| - |r|];
    }
  }

  /** TrimEnd keeps a prefix of s that is empty or ends with a non-space, and
      everything it drops is white space. */
  lemma {:induction false} TrimEndSpec(s: string)
    ensures |TrimEnd(s)| <= |s| && TrimEnd(s) == s[..|TrimEnd(s)|]
    ensures AllSpace(s[|TrimEnd(s)|..])
    ensures TrimEnd(s) == [] || !IsSpace(TrimEnd(s)[|TrimEnd(s)| - 1])
  {
    if s != [] && IsSpace(s[|s| - 1]) {
      var r := TrimEnd(s[..|s| - 1]);
      TrimEndSpec(s[..|s| - 1]);
      assert s[|r|..] == s[..|s| - 1][|r|..] + [s[|s| - 1]];
    }
  }

  /** Trim keeps a contiguous piece of s, drops only white space on either
      side, and the piece it keeps neither starts nor ends with white space. */
  lemma TrimIsInfix(s: string)
    ensures exists i :: 0 <= i <= i + |Trim(s)| <= |s| && Trim(s) == s[i..i + |Trim(s)|]
                        && AllSpace(s[..i]) && AllSpace(s[i + |Trim(s)|..])
    ensures Trim(s) == [] || (!IsSpace(Trim(s)[0]) && !IsSpace(Trim(s)[|Trim(s)| - 1]))
  {
    var a := TrimStart(s);
    var r := TrimEnd(a);
    TrimStartSpec(s);
    TrimEndSpec(a);
    var i := |s| - |a|;
    assert r == s[i..i + |r|];
    assert s[i + |r|..] == a[|r|..];
  }

  lemma TrimStartKeeps(s: string)
    requires s == [] || !IsSpace(s[0])
    ensures TrimStart(s) == s
  {
  }

  lemma TrimEndKeeps(s: string)
    requires s == [] || !IsSpace(s[|s| - 1])
    ensures TrimEnd(s) == s
  {
  }

  /** Trimming twice is trimming once. */
  lemma TrimIdempotent(s: string)
    ensures Trim(Trim(s)) == Trim(s)
  {
    var t := Trim(s);
    TrimIsInfix(s);
    TrimStartKeeps(t);
    TrimEndKeeps(t);
  }

  /** A value that is only white space trims to the empty string, and only
      such a value does. */
  lemma TrimEmptyIffAllSpace(s: string)
    ensures Trim(s) == [] <==> AllSpace(s)
  {
    var a := TrimStart(s);
    var r := TrimEnd(a);
    TrimStartSpec(s);
    TrimEndSpec(a);
    assert a == [] || a[0] == s[|s| - |a|];
    assert forall k :: 0 <= k < |s| - |a| ==> IsSpace(s[k]) by {
      forall k | 0 <= k < |s| - |a| ensures IsSpace(s[k]) { assert s[..|s| - |a|][k] == s[k]; }
    }
    assert forall j :: |r| <= j < |a| ==> IsSpace(a[j]) by {
      forall j | |r| <= j < |a| ensures IsSpace(a[j]) { assert a[|r|..][j - |r|] == a[j]; }
    }
    assert forall k :: |s| - |a| <= k < |s| ==> a[k - (|s| - |a|)] == s[k];
  }

  /** String.prototype.replace(from, to) with one-character string arguments. */
  function ReplaceFirst(s: string, from: char, to: char): string
  {
    if s == [] then []
    else if s[0] == from then [to] + s[1..]
    else [s[0]] + ReplaceFirst(s[1..], from, to)
  }

  /** Only the first occurrence is replaced: the result is s with position
      IndexOf(s, from) overwritten, or s itself when from does not occur. */
  lemma {:induction false} ReplaceFirstSpec(s: string, from: char, to: char)
    ensures |ReplaceFirst(s, from, to)| == |s|
    ensures from !in s ==> ReplaceFirst(s, from, to) == s
    ensures from in s ==> ReplaceFirst(s, from, to) == s[IndexOf(s, from) := to]
  {
    if s != [] && s[0] != from {
      ReplaceFirstSpec(s[1..], from, to);
      assert s == [s[0]] + s[1..];
    }
  }

  lemma MultisetAround(s: string, i: int)
    requires 0 <= i < |s|
    ensures multiset(s) == multiset(s[..i]) + multiset{s[i]} + multiset(s[i + 1..])
  {
    assert s == s[..i] + [s[i]] + s[i + 1..];
  }

  /** When the character occurs and differs from its replacement, exactly one
      of its occurrences disappears and the others stay. */
  lemma ReplaceFirstRemovesOne(s: string, from: char, to: char)
    requires from in s && from != to
    ensures multiset(ReplaceFirst(s, from, to))[from] == multiset(s)[from] - 1
    ensures multiset(ReplaceFirst(s, from, to))[to] == multiset(s)[to] + 1
  {
    var i := IndexOf(s, from);
    var r := ReplaceFirst(s, from, to);
    ReplaceFirstSpec(s, from, to);
    MultisetAround(s, i);
    MultisetAround(r, i);
    assert r[..i] == s[..i];
    assert r[i + 1..] == s[i + 1..];
  }

  /** String.prototype.toUpperCase restricted to ASCII letters. */
  function UpperAscii(c: char): (u: char)
    ensures 'a' <= c <= 'z' ==> 'A' <= u <= 'Z' && u as int - 'A' as int == c as int - 'a' as int
    ensures !('a' <= c <= 'z') ==> u == c
  {
    if 'a' <= c <= 'z' then (c as int - 32) as char else c
  }

  function ToUpperAscii(s: string): (r: string)
    ensures |r| == |s|
    ensures forall i :: 0 <= i < |s| ==> r[i] == UpperAscii(s[i])
  {
    if s == [] then [] else [UpperAscii(s[0])] + ToUpperAscii(s[1..])
  }
}
