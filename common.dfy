/** String helpers of the server (server/common.c): NUL-terminated buffers,
    `rstrip` and `strlcpy`. A C string lives in an `array<char>`; its
    contents are the characters before the first NUL. */
module CString {

  /** The four bytes the server treats as white space. */
  predicate IsSpace(c: char) {
    c == ' ' || c == '\t' || c == '\r' || c == '\n'
  }

  /** `strlen`: the index of the first NUL, or the length when there is none. */
  function StrLen(a: seq<char>): (n: nat)
    ensures n <= |a|
    ensures forall i :: 0 <= i < n ==> a[i] != '\0'
    ensures n < |a| ==> a[n] == '\0'
  {
    if |a| == 0 || a[0] == '\0' then 0 else 1 + StrLen(a[1..])
  }

  /** The contents of a NUL-terminated buffer. */
  function CStr(a: seq<char>): (s: seq<char>)
    ensures '\0' !in s
  {
    a[..StrLen(a)]
  }

  lemma CStrOfTerminated(s: seq<char>, rest: seq<char>)
    requires '\0' !in s
    ensures CStr(s + ['\0'] + rest) == s
  {
    var a := s + ['\0'] + rest;
    assert a[|s|] == '\0';
  }

  /** The string with its trailing white space removed: the reference for `rstrip`. */
  function RStripped(s: seq<char>): (r: seq<char>)
  {
    if |s| > 0 && IsSpace(s[|s| - 1]) then RStripped(s[..|s| - 1]) else s
  }

  /** `RStripped` keeps a prefix, drops only white space, and leaves no
      trailing white space behind. */
  lemma {:induction false} RStrippedSpec(s: seq<char>)
    ensures |RStripped(s)| <= |s|
    ensures RStripped(s) == s[..|RStripped(s)|]
    ensures forall i :: |RStripped(s)| <= i < |s| ==> IsSpace(s[i])
    ensures RStripped(s) == [] || !IsSpace(RStripped(s)[|RStripped(s)| - 1])
  {
    if |s| > 0 && IsSpace(s[|s| - 1]) {
      var t := s[..|s| - 1];
      RStrippedSpec(t);
      assert t[..|RStripped(t)|] == s[..|RStripped(t)|];
    }
  }

  /** Any prefix followed only by white space and not itself ending in white
      space is the stripped string: the characterisation above pins it down. */
  lemma RStrippedUnique(s: seq<char>, k: nat)
    requires k <= |s|
    requires forall i :: k <= i < |s| ==> IsSpace(s[i])
    requires k == 0 || !IsSpace(s[k - 1])
    ensures RStripped(s) == s[..k]
  {
    RStrippedSpec(s);
  }

  lemma RStripIdempotent(s: seq<char>)
    ensures RStripped(RStripped(s)) == RStripped(s)
  {
    RStrippedSpec(s);
    var r := RStripped(s);
    RStrippedUnique(r, |r|);
  }

  lemma RStripAllSpace(s: seq<char>)
    requires forall i :: 0 <= i < |s| ==> IsSpace(s[i])
    ensures RStripped(s) == []
  {
    RStrippedUnique(s, 0);
  }

  lemma RStripKeepsNul(s: seq<char>)
    requires '\0' !in s
    ensures '\0' !in RStripped(s)
  {
    RStrippedSpec(s);
  }

  /** `rstrip(s)`: cuts the string at the first of its trailing white-space
      characters by writing a NUL there; nothing else in the buffer changes. */
  method RStrip(s: array<char>)
    requires '\0' in s[..]
    modifies s
    ensures |RStripped(old(CStr(s[..])))| < s.Length
    ensures s[..] == old(s[..])[|RStripped(old(CStr(s[..])))| := '\0']
    ensures CStr(s[..]) == RStripped(old(CStr(s[..])))
  {
    ghost var str := CStr(s[..]);
    var pos := StrLen(s[..]);
    while pos > 0 && IsSpace(s[pos - 1])
      invariant 0 <= pos <= |str|
      invariant forall i :: pos <= i < |str| ==> IsSpace(str[i])
    {
      pos := pos - 1;
    }
    assert pos == 0 || !IsSpace(str[pos - 1]);
    RStrippedUnique(str, pos);
    ghost var before := s[..];
    s[pos] := '\0';
    assert s[..] == before[pos := '\0'];
    assert s[..] == str[..pos] + ['\0'] + s[pos + 1..];
    CStrOfTerminated(str[..pos], s[pos + 1..]);
  }

  /** The result of copying `src` into a buffer of `size` bytes. */
  function Truncated(src: seq<char>, size: nat): (r: seq<char>)
    requires size > 0
    ensures |r| == if |src| < size then |src| else size - 1
    ensures r == src[..|r|]
  {
    if |src| < size then src else src[..size - 1]
  }

  /** `strlcpy(dest, src, size)`. With `size == 0` nothing is written.
      Otherwise the first min(strlen(src), size - 1) characters are copied and
      a NUL follows them. The result is always strlen(src). */
  method StrLCopy(dest: array<char>, src: seq<char>, size: nat) returns (n: nat)
    requires '\0' !in src
    requires size <= dest.Length
    modifies dest
    ensures n == |src|
    ensures size == 0 ==> dest[..] == old(dest[..])
    ensures size > 0 ==>
      var k := |Truncated(src, size)|;
      && dest[..k] == src[..k]
      && dest[k] == '\0'
      && dest[k + 1..] == old(dest[k + 1..])
    ensures size > 0 ==> (n >= size <==> |Truncated(src, size)| < n)
  {
    if size == 0 {
      return |src|;
    }
    var i := 0;
    while i < size - 1 && i < |src|
      invariant 0 <= i <= size - 1 && i <= |src|
      invariant dest[..i] == src[..i]
      invariant dest[i..] == old(dest[i..])
    {
      dest[i] := src[i];
      i := i + 1;
    }
    dest[i] := '\0';
    n := i;
    while n < |src|
      invariant i <= n <= |src|
    {
      n := n + 1;
    }
  }
}
