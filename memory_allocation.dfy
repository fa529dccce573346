/** Pool allocation from edk2's MemoryAllocationLib, for CHAR16 buffers.
    Whether the pool can satisfy a request is an input (`available`). */
module MemoryAllocation {
  import opened SafeString

  /** AllocateCopyPool (AllocationSize, Buffer): a new buffer of
      AllocationSize bytes holding a copy of the first AllocationSize bytes at
      Buffer, or NULL when the pool is exhausted. `buffer` is the memory that
      may be read at Buffer, so the copy must stay inside it. */
  method AllocateCopyPool(allocationSize: nat, buffer: seq<char>, available: bool) returns (p: array?<char>)
    requires allocationSize % CharSize == 0
    requires allocationSize / CharSize <= |buffer|
    ensures p != null <==> available
    ensures p != null ==> fresh(p) && p[..] == buffer[..allocationSize / CharSize]
  {
    if !available {
      return null;
    }
    p := new char[allocationSize / CharSize];
    forall i | 0 <= i < p.Length {
      p[i] := buffer[i];
    }
  }

  /** `count` NUL characters: a zeroed CHAR16 area. */
  function Nuls(count: nat): (r: seq<char>)
    ensures |r| == count
    ensures forall i | 0 <= i < count :: r[i] == Nul
  {
    seq(count, _ => Nul)
  }

  /** A zeroed buffer of AllocationSize bytes into which only the StrSize
      bytes of the string `s` are copied (AllocateZeroPool, then CopyMem):
      nothing past the string's terminator is read. */
  method AllocateStringPool(allocationSize: nat, s: seq<char>, available: bool) returns (p: array?<char>)
    requires Terminated(s)
    requires allocationSize % CharSize == 0 && StrSize(s) <= allocationSize
    ensures p != null <==> available
    ensures p != null ==> fresh(p) && p.Length * CharSize == allocationSize
    ensures p != null ==> p[..] == Str(s) + [Nul] + Nuls(allocationSize / CharSize - StrLen(s) - 1)
  {
    if !available {
      return null;
    }
    var length := StrLen(s);
    p := new char[allocationSize / CharSize];
    forall i | 0 <= i < p.Length {
      p[i] := if i <= length then s[i] else Nul;
    }
    assert p[..] == Str(s) + [Nul] + Nuls(allocationSize / CharSize - length - 1);
  }
}
