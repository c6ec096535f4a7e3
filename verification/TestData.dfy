/** testdata_createCharStr: the string of all characters used by the libc tests. */
module TestData {
  import opened Options

  const UCHAR_MAX: int := 255

  /** The byte at index i: the index modulo the character range, with one in place of zero. */
  function CharAt(i: nat): nat {
    if i % (UCHAR_MAX + 1) == 0 then 1 else i % (UCHAR_MAX + 1)
  }

  /** The generated string, terminator included. */
  function CharStr(size: nat): seq<nat> {
    seq(size, i requires 0 <= i => if i < size - 1 then CharAt(i) else 0)
  }

  /** The generator; the buffer is cleared on allocation, and no buffer is no string. */
  method CreateCharStr(size: nat, available: bool) returns (data: Option<array<nat>>)
    ensures data.Some? <==> available
    ensures data.Some? ==> fresh(data.value) && data.value[..] == CharStr(size)
  {
    if !available {
      return None;
    }
    var dataStr := new nat[size](i => 0);
    var i := 0;
    while i < size - 1
      invariant 0 <= i <= size && (size > 0 ==> i <= size - 1)
      invariant forall j :: 0 <= j < i ==> dataStr[j] == CharAt(j)
      invariant forall j :: i <= j < size ==> dataStr[j] == 0
    {
      dataStr[i] := i % (UCHAR_MAX + 1);
      if dataStr[i] == 0 {
        dataStr[i] := 1;
      }
      i := i + 1;
    }
    data := Some(dataStr);
  }

  /** Which byte values occur before the terminator. */
  predicate Contains(size: nat, byte: nat) {
    exists i :: 0 <= i < size - 1 && CharStr(size)[i] == byte
  }

  /**
   For every size: the only terminator is the last byte; up to 257 the string counts 1, 1,
   2, 3 and so on; and it holds every non-zero byte value exactly from 257 on.
   */
  lemma CharStrContents(size: nat)
    requires size >= 1
    ensures CharStr(size)[size - 1] == 0
    ensures forall i :: 0 <= i < size - 1 ==> 1 <= CharStr(size)[i] <= UCHAR_MAX
    ensures size <= 257 ==> forall i :: 0 <= i < size - 1 ==> CharStr(size)[i] == if i == 0 then 1 else i
    ensures (forall byte :: 1 <= byte <= UCHAR_MAX ==> Contains(size, byte)) <==> size >= 257
  {
    if size >= 257 {
      forall byte | 1 <= byte <= UCHAR_MAX ensures Contains(size, byte) {
        assert CharStr(size)[byte] == byte;
      }
    } else {
      assert !Contains(size, UCHAR_MAX);
    }
  }
}
