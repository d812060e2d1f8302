/** The chunk reader with its own CRC: what a damaged chunk meets. */
module PngFile {
  import opened UnicodeText
  import opened Crc32
  import opened CrcPolynomial
  import opened PngChunks

  function Generator(): Feedback {
    CrcPolynomial.PngGenerator();
    PngFeedback()
  }

  function ChunkCrc(data: seq<Byte>): nat { Number(Checksum(Generator(), PngStart(), data)) }

  function PngFields(): Fields { Fields(U32, KindOf, ChunkCrc) }

  lemma {:induction false} NumberInjective(a: Bits, b: Bits)
    requires |a| == |b| && Number(a) == Number(b)
    ensures a == b
  {
    if a != [] {
      NumberInjective(a[1..], b[1..]);
      assert a == [a[0]] + a[1..] && b == [b[0]] + b[1..];
    }
  }

  /** A chunk whose type and body were damaged within four consecutive bytes is never accepted with its old CRC. */
  lemma DamagedChunkRefused(c: Chunk, damaged: Chunk, before: Bytes, was: Bytes, now: Bytes, after: Bytes)
    requires IsChunk(PngFields(), c) && damaged.check == c.check
    requires c.kind + c.body == before + was + after && damaged.kind + damaged.body == before + now + after
    requires |was| == |now| <= 4 && was != now
    ensures !IsChunk(PngFields(), damaged)
  {
    var g, start := Generator(), PngStart();
    FourByteBurst(g, start, before, was, now, after);
    if ChunkCrc(c.kind + c.body) == ChunkCrc(damaged.kind + damaged.body) {
      NumberInjective(Checksum(g, start, before + was + after), Checksum(g, start, before + now + after));
    }
  }
}
