/** The CHAR16 string routines of edk2's BaseLib that the boot description
    handler relies on. A string is the memory its pointer designates, a
    `seq<char>` that holds a NUL somewhere; its text is what precedes the
    first NUL. Sizes are in bytes, as in the source: a CHAR16 takes two. */
module SafeString {

  const Nul: char := '\0'
  /** sizeof (CHAR16) */
  const CharSize: nat := 2

  /** RETURN_STATUS values that StrCatS can give. */
  datatype ReturnStatus =
    | ReturnSuccess
    | ReturnInvalidParameter
    | ReturnBadBufferSize
    | ReturnBufferTooSmall

  /** The buffer holds a NUL, so the string it starts ends inside it. */
  predicate Terminated(s: seq<char>) {
    Nul in s
  }

  /** StrnLenS: the number of characters before the first NUL, looking at no
      more than the first `maxSize`. */
  function StrnLen(s: seq<char>, maxSize: nat): (n: nat)
    requires maxSize <= |s|
    ensures n <= maxSize
    ensures forall i | 0 <= i < n :: s[i] != Nul
    ensures n < maxSize ==> s[n] == Nul
    decreases maxSize
  {
    if maxSize == 0 || s[0] == Nul then 0 else 1 + StrnLen(s[1..], maxSize - 1)
  }

  /** StrLen: the position of the first NUL. */
  function StrLen(s: seq<char>): (n: nat)
    requires Terminated(s)
    ensures n < |s| && s[n] == Nul
    ensures forall i | 0 <= i < n :: s[i] != Nul
  {
    StrnLen(s, |s|)
  }

  /** The text of the string, without its terminator. */
  function Str(s: seq<char>): seq<char>
    requires Terminated(s)
  {
    s[..StrLen(s)]
  }

  /** StrSize: the bytes the string occupies, terminator included. */
  function StrSize(s: seq<char>): (n: nat)
    requires Terminated(s)
    ensures n % CharSize == 0 && 0 < n / CharSize <= |s|
    ensures s[..n / CharSize] == Str(s) + [Nul]
  {
    (StrLen(s) + 1) * CharSize
  }

  /** The first NUL fixes the length: no other position can be it. */
  lemma StrLenAt(s: seq<char>, n: nat)
    requires n < |s| && s[n] == Nul
    requires forall i | 0 <= i < n :: s[i] != Nul
    ensures Terminated(s) && StrLen(s) == n
  {
  }

  /** A text followed by a NUL reads back as that text, whatever follows. */
  lemma StrOfText(text: seq<char>, rest: seq<char>)
    requires Nul !in text
    ensures Terminated(text + [Nul] + rest)
    ensures StrLen(text + [Nul] + rest) == |text|
    ensures Str(text + [Nul] + rest) == text
    ensures StrSize(text + [Nul] + rest) == (|text| + 1) * CharSize
  {
    var s := text + [Nul] + rest;
    assert s[|text|] == Nul;
    forall i | 0 <= i < |text| ensures s[i] != Nul {
      assert s[i] == text[i];
    }
    StrLenAt(s, |text|);
  }

  /** The text of a string never holds a NUL. */
  lemma StrHasNoNul(s: seq<char>)
    requires Terminated(s)
    ensures Nul !in Str(s)
    ensures s[..StrLen(s) + 1] == Str(s) + [Nul]
  {
  }

  // ---------------------------------------------------------------------
  // StrCatS

  /** What StrCatS (Destination, DestMax, Source) returns, from the checks it
      makes before copying anything. */
  function StrCatStatus(dest: seq<char>, destMax: nat, source: seq<char>): ReturnStatus
    requires destMax <= |dest| && Terminated(source)
  {
    if destMax == 0 then ReturnInvalidParameter
    else if StrnLen(dest, destMax) == destMax then ReturnBadBufferSize
    else if destMax - StrnLen(dest, destMax) <= StrLen(source) then ReturnBufferTooSmall
    else ReturnSuccess
  }

  /** The destination buffer after a successful StrCatS: the source text and a
      NUL written where the destination's terminator was; the rest untouched. */
  function Appended(dest: seq<char>, destMax: nat, source: seq<char>): seq<char>
    requires destMax <= |dest| && Terminated(source)
    requires StrCatStatus(dest, destMax, source) == ReturnSuccess
  {
    var dl := StrnLen(dest, destMax);
    dest[..dl] + Str(source) + [Nul] + dest[dl + StrLen(source) + 1..]
  }

  /** StrCatS succeeds exactly when the two texts and one terminator fit in
      `destMax` characters: it never truncates, it refuses. */
  lemma StrCatSucceedsIffFits(dest: seq<char>, destMax: nat, source: seq<char>)
    requires destMax <= |dest| && Terminated(source)
    ensures StrCatStatus(dest, destMax, source) == ReturnSuccess
        <==> StrnLen(dest, destMax) + StrLen(source) + 1 <= destMax
  {
  }

  /** After a successful StrCatS the buffer keeps its size and holds the
      concatenation of the two texts, terminated. */
  lemma {:induction false} AppendedIsConcatenation(dest: seq<char>, destMax: nat, source: seq<char>)
    requires destMax <= |dest| && Terminated(source)
    requires StrCatStatus(dest, destMax, source) == ReturnSuccess
    ensures |Appended(dest, destMax, source)| == |dest|
    ensures Terminated(Appended(dest, destMax, source))
    ensures Str(Appended(dest, destMax, source)) == dest[..StrnLen(dest, destMax)] + Str(source)
  {
    var dl := StrnLen(dest, destMax);
    var text := dest[..dl] + Str(source);
    StrHasNoNul(source);
    assert Nul !in text by {
      forall i | 0 <= i < |text| ensures text[i] != Nul {
        if i >= dl {
          assert text[i] == Str(source)[i - dl];
        }
      }
    }
    assert Appended(dest, destMax, source) == text + [Nul] + dest[dl + StrLen(source) + 1..];
    StrOfText(text, dest[dl + StrLen(source) + 1..]);
  }

  /** Appended, position by position. */
  lemma AppendedAt(dest: seq<char>, destMax: nat, source: seq<char>)
    requires destMax <= |dest| && Terminated(source)
    requires StrCatStatus(dest, destMax, source) == ReturnSuccess
    ensures |Appended(dest, destMax, source)| == |dest|
    ensures forall k | 0 <= k < |dest| ::
      Appended(dest, destMax, source)[k] ==
        var dl := StrnLen(dest, destMax);
        if dl <= k < dl + StrLen(source) then source[k - dl]
        else if k == dl + StrLen(source) then Nul
        else dest[k]
  {
  }

  /** StrCatS: appends the source string to the destination string in place,
      after checking that the result fits in `destMax` characters. */
  method StrCatS(dest: array<char>, destMax: nat, source: seq<char>) returns (status: ReturnStatus)
    requires destMax <= dest.Length && Terminated(source)
    modifies dest
    ensures status == StrCatStatus(old(dest[..]), destMax, source)
    ensures status == ReturnSuccess ==> dest[..] == Appended(old(dest[..]), destMax, source)
    ensures status != ReturnSuccess ==> dest[..] == old(dest[..])
  {
    if destMax == 0 {
      return ReturnInvalidParameter;
    }
    var destLen := StrnLen(dest[..], destMax);
    var copyLen := destMax - destLen;
    if copyLen == 0 {
      return ReturnBadBufferSize;
    }
    var sourceLen := StrLen(source);
    if copyLen <= sourceLen {
      return ReturnBufferTooSmall;
    }
    ghost var before := dest[..];
    var i := 0;
    while source[i] != Nul
      invariant 0 <= i <= sourceLen
      invariant forall k | 0 <= k < dest.Length ::
        dest[k] == if destLen <= k < destLen + i then source[k - destLen] else before[k]
      decreases sourceLen - i
    {
      dest[destLen + i] := source[i];
      i := i + 1;
    }
    dest[destLen + i] := Nul;
    status := ReturnSuccess;
    AppendedAt(before, destMax, source);
  }
}
