/** The byte pattern carried by every session: the byte at stream position p is p modulo 256. */
module Stream {
  type Byte = x: int | 0 <= x < 256

  /** 128 KiB, the size of the send and receive buffers. */
  const BUFFER_SIZE: nat := 131072

  /** Conversion to `std::uint8_t`. */
  function Low8(n: int): Byte {
    n % 256
  }

  /** Incrementing the byte wraps as the position does. */
  lemma Low8Next(n: nat)
    ensures Low8(Low8(n) + 1) == Low8(n + 1)
  {
  }

  /** data is the piece of the pattern that starts at stream position p. */
  ghost predicate IsStream(data: seq<Byte>, p: nat) {
    forall i :: 0 <= i < |data| ==> data[i] == Low8(p + i)
  }

  /** The contents of the send buffer after initialization. */
  function SendBuffer(): (b: seq<Byte>)
    ensures |b| == BUFFER_SIZE
    ensures IsStream(b, 0)
  {
    seq(BUFFER_SIZE, i requires 0 <= i => Low8(i))
  }

  /** A chunk read from the buffer at the low byte of the sent count continues the pattern. */
  lemma ChunkIsStream(sent: nat, n: nat)
    requires Low8(sent) + n <= BUFFER_SIZE
    ensures IsStream(SendBuffer()[Low8(sent)..Low8(sent) + n], sent)
  {
    var chunk := SendBuffer()[Low8(sent)..Low8(sent) + n];
    forall i | 0 <= i < |chunk| ensures chunk[i] == Low8(sent + i) {
      assert chunk[i] == SendBuffer()[Low8(sent) + i] == Low8(0 + (Low8(sent) + i));
    }
  }

  lemma StreamAppend(a: seq<Byte>, b: seq<Byte>, p: nat)
    requires IsStream(a, p)
    requires IsStream(b, p + |a|)
    ensures IsStream(a + b, p)
  {
    forall i | 0 <= i < |a + b| ensures (a + b)[i] == Low8(p + i) {
      if i >= |a| {
        assert b[i - |a|] == Low8(p + |a| + (i - |a|));
      }
    }
  }

  lemma StreamSplit(a: seq<Byte>, n: nat, p: nat)
    requires IsStream(a, p)
    requires n <= |a|
    ensures IsStream(a[..n], p)
    ensures IsStream(a[n..], p + n)
  {
    forall i | 0 <= i < |a[n..]| ensures a[n..][i] == Low8(p + n + i) {
      assert a[n + i] == Low8(p + (n + i));
    }
  }
}
