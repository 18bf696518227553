/** The WAV writer of the noise detection module, over a file that may run full, and a decoder
    for the files it writes (the PCM WAVE form of the IBM/Microsoft Multimedia Programming Interface
    and Data Specifications 1.0). */
module WavWriter {
  import opened Text

  type byte = x: int | 0 <= x < 256
  type int16 = x: int | -0x8000 <= x < 0x8000

  const WAVE_FORMAT_PCM := 1
  const WAV_HEADER_SIZE := 44

  function Word(c: string): (r: seq<byte>)
    requires forall i :: 0 <= i < |c| ==> c[i] as int < 256
    ensures |r| == |c|
  {
    seq(|c|, i requires 0 <= i < |c| => c[i] as int)
  }

  /** unsigned int, unsigned short */
  function U32(x: int): nat {
    x % 0x1_0000_0000
  }

  function U16(x: int): nat {
    x % 0x1_0000
  }

  function LE16(x: int): (r: seq<byte>)
    ensures |r| == 2
  {
    [U16(x) % 256, U16(x) / 256]
  }

  function LE32(x: int): (r: seq<byte>)
    ensures |r| == 4
  {
    [U32(x) % 256, U32(x) / 256 % 256, U32(x) / 0x1_0000 % 256, U32(x) / 0x100_0000]
  }

  /** The 44 bytes before the samples. */
  function Header(rate: int, channels: int, riff: int, data: int): (r: seq<byte>)
    ensures |r| == WAV_HEADER_SIZE
  {
    Word("RIFF") + LE32(riff) + Word("WAVE") + Word("fmt ") + LE32(16) + LE16(WAVE_FORMAT_PCM) + LE16(channels)
    + LE32(rate) + LE32(rate * channels * 2) + LE16(channels * 2) + LE16(16) + Word("data") + LE32(data)
  }

  function Data(samples: seq<int16>): (r: seq<byte>)
    ensures |r| == 2 * |samples|
  {
    if samples == [] then [] else Data(samples[..|samples| - 1]) + LE16(samples[|samples| - 1])
  }

  // ---------- the file ----------

  function Overwrite(bytes: seq<byte>, pos: nat, data: seq<byte>): seq<byte>
    requires pos <= |bytes|
  {
    if pos + |data| <= |bytes| then bytes[..pos] + data + bytes[pos + |data|..] else bytes[..pos] + data
  }

  lemma OverwriteLength(bytes: seq<byte>, pos: nat, data: seq<byte>)
    requires pos + |data| <= |bytes|
    ensures |Overwrite(bytes, pos, data)| == |bytes|
  {}

  /** A file on a disk with room for so many bytes of it. */
  class File {
    const room: nat
    const seekable: bool
    var bytes: seq<byte>
    var pos: nat

    constructor (room: nat, seekable: bool)
      ensures Valid() && bytes == [] && pos == 0 && this.room == room && this.seekable == seekable
    {
      this.room, this.seekable, bytes, pos := room, seekable, [], 0;
    }

    predicate Valid()
      reads this
    {
      pos <= |bytes| <= room
    }

    method Fwrite(data: seq<byte>) returns (n: nat)
      requires Valid()
      modifies this
      ensures Valid()
      ensures n == if pos <= room && old(pos) + |data| <= room then |data| else room - old(pos)
      ensures n <= |data| && bytes == Overwrite(old(bytes), old(pos), data[..n]) && pos == old(pos) + n
    {
      n := if pos + |data| <= room then |data| else room - pos;
      bytes := Overwrite(bytes, pos, data[..n]);
      pos := pos + n;
    }

    method Fseek(offset: nat) returns (result: int)
      requires Valid() && offset <= |bytes|
      modifies this`pos
      ensures Valid()
      ensures if seekable then result == 0 && pos == offset else result == -1 && pos == old(pos)
    {
      if !seekable {
        return -1;
      }
      pos := offset;
      result := 0;
    }
  }

  // ---------- byte buffers and advancing addresses ----------

  method WriteLongLE(buffer: array<byte>, addr: nat, data: int) returns (next: nat)
    requires addr + 4 <= buffer.Length
    modifies buffer
    ensures next == addr + 4 && buffer[..next] == old(buffer[..addr]) + LE32(data)
  {
    var d := U32(data);
    buffer[addr] := d % 256;
    buffer[addr + 1] := d / 256 % 256;
    buffer[addr + 2] := d / 0x1_0000 % 256;
    buffer[addr + 3] := d / 0x100_0000;
    next := addr + 4;
  }

  method WriteShortLE(buffer: array<byte>, addr: nat, data: int) returns (next: nat)
    requires addr + 2 <= buffer.Length
    modifies buffer
    ensures next == addr + 2 && buffer[..next] == old(buffer[..addr]) + LE16(data)
  {
    var d := U16(data);
    buffer[addr] := d % 256;
    buffer[addr + 1] := d / 256;
    next := addr + 2;
  }

  method WriteChunkType(buffer: array<byte>, addr: nat, name: string) returns (next: nat)
    requires addr + 4 <= buffer.Length && |name| == 4
    requires forall i :: 0 <= i < |name| ==> name[i] as int < 256
    modifies buffer
    ensures next == addr + 4 && buffer[..next] == old(buffer[..addr]) + Word(name)
  {
    buffer[addr] := name[0] as int;
    buffer[addr + 1] := name[1] as int;
    buffer[addr + 2] := name[2] as int;
    buffer[addr + 3] := name[3] as int;
    next := addr + 4;
  }

  // ---------- the writer ----------

  class Writer {
    var file: File?
    var dataSize: int
    var dataSizeOffset: nat

    constructor ()
      ensures file == null
    {
      file, dataSize, dataSizeOffset := null, 0, 0;
    }

    /** Audio_WAV_OpenWriter; stream is what fopen returns. */
    method Open(stream: File?, frameRate: int, samplesPerFrame: int) returns (result: int)
      requires stream != null ==> stream.Valid() && stream.bytes == [] && stream.pos == 0
      modifies this, stream
      ensures file == stream
      ensures stream != null ==> stream.Valid() && stream.pos == |stream.bytes|
      ensures stream != null && stream.room >= WAV_HEADER_SIZE ==>
                result == WAV_HEADER_SIZE && stream.bytes == Header(frameRate, samplesPerFrame, 0, 0)
                && dataSize == 0 && dataSizeOffset == 40
      ensures stream == null || stream.room < WAV_HEADER_SIZE ==> result == -1
    {
      dataSize, dataSizeOffset := 0, 0;
      file := stream;
      if stream == null {
        return -1;
      }
      var header := BuildHeader(frameRate, samplesPerFrame);
      dataSizeOffset := 40;
      var numWritten := stream.Fwrite(header[..]);
      assert header[..][..numWritten] == header[..numWritten];
      if numWritten != WAV_HEADER_SIZE {
        return -1;
      }
      assert header[..44] == header[..];
      result := numWritten;
    }

    /** The fields of the format chunk. */
    static method WriteFormat(header: array<byte>, start: nat, frameRate: int, samplesPerFrame: int)
      returns (addr: nat)
      requires start + 20 <= header.Length
      modifies header
      ensures addr == start + 20
      ensures header[..addr] == old(header[..start]) + LE32(16) + LE16(WAVE_FORMAT_PCM) + LE16(samplesPerFrame)
                                + LE32(frameRate) + LE32(frameRate * samplesPerFrame * 2)
                                + LE16(samplesPerFrame * 2) + LE16(16)
    {
      hide LE32, LE16, U16, U32;
      addr := WriteLongLE(header, start, 16);
      addr := WriteShortLE(header, addr, WAVE_FORMAT_PCM);
      addr := WriteShortLE(header, addr, samplesPerFrame);
      addr := WriteLongLE(header, addr, frameRate);
      addr := WriteLongLE(header, addr, frameRate * samplesPerFrame * 2);
      addr := WriteShortLE(header, addr, samplesPerFrame * 2);
      addr := WriteShortLE(header, addr, 16);
    }

    /** The part of Audio_WAV_OpenWriter that fills the header buffer. */
    static method BuildHeader(frameRate: int, samplesPerFrame: int) returns (header: array<byte>)
      ensures fresh(header) && header.Length == WAV_HEADER_SIZE
      ensures header[..] == Header(frameRate, samplesPerFrame, 0, 0)
    {
      hide LE32, LE16, Word, U16, U32;
      header := new byte[WAV_HEADER_SIZE];
      var addr := 0;
      addr := WriteChunkType(header, addr, "RIFF");
      addr := WriteLongLE(header, addr, 0);
      addr := WriteChunkType(header, addr, "WAVE");
      addr := WriteChunkType(header, addr, "fmt ");
      assert header[..16] == Word("RIFF") + LE32(0) + Word("WAVE") + Word("fmt ");
      addr := WriteFormat(header, addr, frameRate, samplesPerFrame);
      addr := WriteChunkType(header, addr, "data");
      addr := WriteLongLE(header, addr, 0);
      assert header[..addr] == header[..];
    }

    /** Audio_WAV_WriteShorts. A full disk leaves what fitted in the file and the sizes as they were. */
    method WriteShorts(samples: seq<int16>) returns (result: int)
      requires file != null && file.Valid() && file.pos == |file.bytes|
      requires dataSize + 2 * |samples| < 0x8000_0000
      modifies this`dataSize, file
      ensures file == old(file) && file.Valid() && file.pos == |file.bytes|
      ensures var all := old(file.bytes) + Data(samples);
              if samples == [] then result == -1 && file.bytes == old(file.bytes) && dataSize == old(dataSize)
              else if |all| <= file.room then result == 2 * |samples| && file.bytes == all
                                              && dataSize == old(dataSize) + 2 * |samples|
              else result == -1 && file.bytes == all[..file.room] && dataSize == old(dataSize)
    {
      if |samples| <= 0 {
        return -1;
      }
      hide LE16, Overwrite;
      ghost var before := file.bytes;
      for i := 0 to |samples|
        invariant file == old(file) && file.Valid() && file.pos == |file.bytes|
        invariant file.bytes == before + Data(samples[..i])
        invariant dataSize == old(dataSize)
      {
        assert samples[..i + 1][..i] == samples[..i];
        Appended(before, Data(samples[..i]), LE16(samples[i]));
        var numWritten := WriteSample(samples[i]);
        if numWritten != 2 {
          DataPrefix(samples, i + 1);
          CutShort(before, Data(samples[..i + 1]), Data(samples), file.room);
          return -1;
        }
      }
      assert samples[..|samples|] == samples;
      var bytesWritten := |samples| * 2;
      dataSize := dataSize + bytesWritten;
      result := bytesWritten;
    }

    /** One turn of the loop of Audio_WAV_WriteShorts: a two-byte buffer for the sample. */
    method WriteSample(sample: int16) returns (numWritten: nat)
      requires file != null && file.Valid() && file.pos == |file.bytes|
      modifies file
      ensures file.Valid() && file.pos == |file.bytes|
      ensures numWritten == 2 <==> |old(file.bytes)| + 2 <= file.room
      ensures var all := old(file.bytes) + LE16(sample);
              file.bytes == if numWritten == 2 then all else all[..file.room]
    {
      var buffer := new byte[2];
      var end := WriteShortLE(buffer, 0, sample);
      assert buffer[..] == buffer[..2] == LE16(sample);
      numWritten := file.Fwrite(buffer[..]);
      assert buffer[..][..2] == buffer[..];
    }

    /** Audio_WAV_CloseWriter. */
    method Close() returns (result: int)
      requires file != null && file.Valid() && |file.bytes| >= WAV_HEADER_SIZE && dataSizeOffset == 40
      requires 0 <= dataSize < 0x8000_0000 - 36
      modifies this`file, file
      ensures old(file).seekable ==>
                result == dataSize && file == null
                && old(file).bytes == Overwrite(Overwrite(old(file.bytes), 40, LE32(dataSize)), 4, LE32(dataSize + 36))
      ensures !old(file).seekable ==> result == -1 && file == old(file) && file.bytes == old(file.bytes)
    {
      hide LE32, Overwrite;
      ghost var before := file.bytes;
      OverwriteLength(before, 40, LE32(dataSize));
      var patched := Patch(dataSizeOffset, dataSize);
      if patched < 0 {
        return patched;
      }
      var riffSize := dataSize + (WAV_HEADER_SIZE - 8);
      patched := Patch(4, riffSize);
      if patched < 0 {
        return patched;
      }
      file := null;
      result := dataSize;
    }

    /** Go back to an offset and overwrite four bytes there; Audio_WAV_CloseWriter does this twice. */
    method Patch(offset: nat, value: int) returns (result: int)
      requires file != null && file.Valid() && offset + 4 <= |file.bytes|
      modifies file
      ensures file.Valid()
      ensures if file.seekable then result == 0 && file.bytes == Overwrite(old(file.bytes), offset, LE32(value))
              else result == -1 && file.bytes == old(file.bytes)
    {
      hide LE32, Overwrite;
      result := file.Fseek(offset);
      if result < 0 {
        return;
      }
      var buffer := new byte[4];
      var end := WriteLongLE(buffer, 0, value);
      assert buffer[..] == buffer[..4] == LE32(value);
      var numWritten := file.Fwrite(buffer[..]);
      assert buffer[..][..4] == buffer[..];
      if numWritten != 4 {
        return -1;
      }
    }
  }

  lemma Appended(a: seq<byte>, b: seq<byte>, c: seq<byte>)
    ensures a + (b + c) == (a + b) + c
  {}

  lemma CutShort(a: seq<byte>, b: seq<byte>, c: seq<byte>, room: nat)
    requires b <= c && |a| <= room <= |a + b|
    ensures (a + b)[..room] == (a + c)[..room]
  {}

  lemma {:induction false} DataPrefix(samples: seq<int16>, n: nat)
    requires n <= |samples|
    ensures Data(samples[..n]) <= Data(samples)
    decreases |samples|
  {
    if n < |samples| {
      var init := samples[..|samples| - 1];
      DataPrefix(init, n);
      assert init[..n] == samples[..n];
    } else {
      assert samples[..n] == samples;
    }
  }

  // ---------- reading a file back ----------

  function From16(b: seq<byte>): nat
    requires |b| == 2
  {
    b[0] as int + 256 * (b[1] as int)
  }

  function From32(b: seq<byte>): nat
    requires |b| == 4
  {
    b[0] as int + 256 * (b[1] as int) + 0x1_0000 * (b[2] as int) + 0x100_0000 * (b[3] as int)
  }

  function Signed(x: nat): int {
    if x >= 0x8000 then x - 0x1_0000 else x
  }

  function Samples(b: seq<byte>): seq<int> {
    if |b| < 2 then [] else Samples(b[..|b| - 2]) + [Signed(From16(b[|b| - 2..]))]
  }

  datatype Wav = Wav(channels: nat, rate: nat, samples: seq<int>)

  /** A well-formed 16-bit PCM file: chunk names, both sizes, format, rates and block size agree with
      each other and with the length of the file. */
  function Decode(f: seq<byte>): Option<Wav> {
    if |f| < WAV_HEADER_SIZE then None
    else
      var channels, rate := From16(f[22..24]), From32(f[24..28]);
      if && f[0..4] == Word("RIFF") && From32(f[4..8]) == |f| - 8 && f[8..12] == Word("WAVE")
         && f[12..16] == Word("fmt ") && From32(f[16..20]) == 16 && From16(f[20..22]) == WAVE_FORMAT_PCM
         && From32(f[28..32]) == U32(rate * channels * 2) && From16(f[32..34]) == U16(channels * 2)
         && From16(f[34..36]) == 16
         && f[36..40] == Word("data") && From32(f[40..44]) == |f| - WAV_HEADER_SIZE && |f| % 2 == 0
      then Some(Wav(channels, rate, Samples(f[44..])))
      else None
  }

  lemma LE32Inverse(x: int)
    ensures From32(LE32(x)) == U32(x)
  {
    var y := U32(x);
    FourDigits(y);
    assert LE32(x) == [y % 256, y / 256 % 256, y / 0x1_0000 % 256, y / 0x100_0000];
  }

  lemma FourDigits(y: nat)
    ensures y == y % 256 + 256 * (y / 256 % 256) + 0x1_0000 * (y / 0x1_0000 % 256) + 0x100_0000 * (y / 0x100_0000)
  {
    var a, b, c := y / 256, y / 0x1_0000, y / 0x100_0000;
    assert 0 <= y - 256 * a < 256 && 0 <= y - 0x1_0000 * b < 0x1_0000 && 0 <= y - 0x100_0000 * c < 0x100_0000;
    assert 0 <= a - 256 * b < 256 && 0 <= b - 256 * c < 256;
    assert a % 256 == a - 256 * b && b % 256 == b - 256 * c;
  }

  lemma LE16Inverse(x: int)
    ensures From16(LE16(x)) == U16(x)
    ensures -0x8000 <= x < 0x8000 ==> Signed(From16(LE16(x))) == x
  {}

  lemma {:induction false} SamplesInverse(samples: seq<int16>)
    ensures Samples(Data(samples)) == samples
    decreases |samples|
  {
    hide LE16, From16, Signed;
    if samples != [] {
      var init, last := samples[..|samples| - 1], samples[|samples| - 1];
      SamplesInverse(init);
      LE16Inverse(last);
      var b := Data(samples);
      assert b[..|b| - 2] == Data(init) && b[|b| - 2..] == LE16(last);
    }
  }

  lemma HeaderFields(rate: int, channels: int, riff: int, data: int)
    ensures var h := Header(rate, channels, riff, data);
            && h[0..4] == Word("RIFF") && h[4..8] == LE32(riff) && h[8..12] == Word("WAVE")
            && h[12..16] == Word("fmt ") && h[16..20] == LE32(16) && h[20..22] == LE16(WAVE_FORMAT_PCM)
            && h[22..24] == LE16(channels) && h[24..28] == LE32(rate) && h[28..32] == LE32(rate * channels * 2)
            && h[32..34] == LE16(channels * 2) && h[34..36] == LE16(16) && h[36..40] == Word("data")
            && h[40..44] == LE32(data)
  {
    hide LE32, LE16, Word;
  }

  lemma HeaderStays(h: seq<byte>, d: seq<byte>)
    requires |h| == WAV_HEADER_SIZE
    ensures var f := h + d;
            && f[0..4] == h[0..4] && f[4..8] == h[4..8] && f[8..12] == h[8..12] && f[12..16] == h[12..16]
            && f[16..20] == h[16..20] && f[20..22] == h[20..22] && f[22..24] == h[22..24] && f[24..28] == h[24..28]
            && f[28..32] == h[28..32] && f[32..34] == h[32..34] && f[34..36] == h[34..36] && f[36..40] == h[36..40]
            && f[40..44] == h[40..44]
  {}

  lemma SmallNumbers(rate: int, channels: int, n: nat)
    requires 0 <= rate < 0x8000_0000 && 0 <= channels < 0x1_0000 && n < 0x8000_0000 - 36
    ensures U32(rate) == rate && U16(channels) == channels && U32(n) == n && U32(n + 36) == n + 36
    ensures U32(16) == 16 && U16(16) == 16 && U16(WAVE_FORMAT_PCM) == WAVE_FORMAT_PCM
  {}

  /** Chunk names and numbers as the decoder sees them. */
  predicate WellFormed(f: seq<byte>, rate: nat, channels: nat) {
    && |f| >= WAV_HEADER_SIZE
    && f[0..4] == Word("RIFF") && From32(f[4..8]) == |f| - 8 && f[8..12] == Word("WAVE")
    && f[12..16] == Word("fmt ") && From32(f[16..20]) == 16 && From16(f[20..22]) == WAVE_FORMAT_PCM
    && From16(f[22..24]) == channels && From32(f[24..28]) == rate
    && From32(f[28..32]) == U32(rate * channels * 2) && From16(f[32..34]) == U16(channels * 2)
    && From16(f[34..36]) == 16
    && f[36..40] == Word("data") && From32(f[40..44]) == |f| - WAV_HEADER_SIZE
  }

  lemma HeaderWellFormed(rate: int, channels: int, d: seq<byte>)
    requires 0 <= rate < 0x8000_0000 && 0 <= channels < 0x1_0000 && |d| < 0x8000_0000 - 36
    ensures WellFormed(Header(rate, channels, |d| + 36, |d|) + d, rate, channels)
  {
    hide LE32, LE16, From32, From16, Word, Header, U32, U16;
    var h := Header(rate, channels, |d| + 36, |d|);
    HeaderFields(rate, channels, |d| + 36, |d|);
    HeaderStays(h, d);
    SmallNumbers(rate, channels, |d|);
    LE32Inverse(|d| + 36);
    LE32Inverse(16);
    LE32Inverse(rate);
    LE32Inverse(rate * channels * 2);
    LE32Inverse(|d|);
    LE16Inverse(WAVE_FORMAT_PCM);
    LE16Inverse(channels);
    LE16Inverse(channels * 2);
    LE16Inverse(16);
  }

  lemma DecodesWellFormed(f: seq<byte>, rate: nat, channels: nat)
    requires WellFormed(f, rate, channels) && |f| % 2 == 0
    ensures Decode(f) == Some(Wav(channels, rate, Samples(f[44..])))
  {
    hide From32, From16, Word, U32, U16, Samples;
  }

  /** The decoder gets back the format and the samples from a header with the right sizes. */
  lemma DecodesWritten(rate: int, channels: int, samples: seq<int16>)
    requires 0 <= rate < 0x8000_0000 && 0 <= channels < 0x1_0000 && 2 * |samples| < 0x8000_0000 - 36
    ensures Decode(Header(rate, channels, 2 * |samples| + 36, 2 * |samples|) + Data(samples))
         == Some(Wav(channels, rate, samples))
  {
    hide Header, Samples, Data, Decode, WellFormed;
    var h, d := Header(rate, channels, 2 * |samples| + 36, 2 * |samples|), Data(samples);
    HeaderWellFormed(rate, channels, d);
    DecodesWellFormed(h + d, rate, channels);
    assert (h + d)[44..] == d;
    SamplesInverse(samples);
  }

  /** Patching the two size fields of a header that was written with zeros. */
  lemma Patched(rate: int, channels: int, riff: int, data: int, d: seq<byte>)
    ensures Overwrite(Overwrite(Header(rate, channels, 0, 0) + d, 40, LE32(data)), 4, LE32(riff))
         == Header(rate, channels, riff, data) + d
  {
    hide LE32, LE16, Word;
  }

  lemma {:induction false} DataConcat(a: seq<int16>, b: seq<int16>)
    ensures Data(a + b) == Data(a) + Data(b)
    decreases |b|
  {
    hide LE16;
    if b == [] {
      assert a + b == a && Data(a) + [] == Data(a);
    } else {
      var init := b[..|b| - 1];
      assert (a + b)[..|a + b| - 1] == a + init;
      DataConcat(a, init);
    }
  }

  function Flatten(blocks: seq<seq<int16>>): seq<int16> {
    if blocks == [] then [] else Flatten(blocks[..|blocks| - 1]) + blocks[|blocks| - 1]
  }

  lemma {:induction false} FlattenPrefix(blocks: seq<seq<int16>>, i: nat)
    requires i <= |blocks|
    ensures |Flatten(blocks[..i])| <= |Flatten(blocks)|
    decreases |blocks|
  {
    if i < |blocks| {
      assert blocks[..|blocks| - 1][..i] == blocks[..i];
      FlattenPrefix(blocks[..|blocks| - 1], i);
    } else {
      assert blocks[..i] == blocks;
    }
  }

  /** The recording loop of the noise detection module: open, write every block, close. When no step
      reports an error, the file decodes to exactly the samples of all blocks in order. */
  method RecordAudio(stream: File?, rate: int, channels: int, blocks: seq<seq<int16>>) returns (ok: bool)
    requires stream != null ==> stream.Valid() && stream.bytes == [] && stream.pos == 0
    requires 0 <= rate < 0x8000_0000 && 0 <= channels < 0x1_0000
    requires 2 * |Flatten(blocks)| < 0x8000_0000 - 36
    modifies stream
    ensures ok ==> stream != null && Decode(stream.bytes) == Some(Wav(channels, rate, Flatten(blocks)))
    ensures ok <==> stream != null && stream.seekable && (forall i :: 0 <= i < |blocks| ==> blocks[i] != [])
                    && WAV_HEADER_SIZE + 2 * |Flatten(blocks)| <= stream.room
  {
    hide Header, Overwrite, LE32, Decode, Data;
    var writer := new Writer();
    var result := writer.Open(stream, rate, channels);
    if result < 0 {
      return false;
    }
    ghost var header := stream.bytes;
    assert header + Data(Flatten([])) == header by { EmptyData(header); }
    for i := 0 to |blocks|
      invariant writer.file == stream && stream.Valid() && stream.pos == |stream.bytes|
      invariant writer.dataSizeOffset == 40 && writer.dataSize == 2 * |Flatten(blocks[..i])|
      invariant stream.bytes == header + Data(Flatten(blocks[..i]))
      invariant forall j :: 0 <= j < i ==> blocks[j] != []
    {
      assert blocks[..i + 1][..i] == blocks[..i];
      FlattenPrefix(blocks, i + 1);
      DataConcat(Flatten(blocks[..i]), blocks[i]);
      Appended(header, Data(Flatten(blocks[..i])), Data(blocks[i]));
      result := writer.WriteShorts(blocks[i]);
      if result < 0 {
        return false;
      }
    }
    assert blocks[..|blocks|] == blocks;
    result := writer.Close();
    ok := result >= 0;
    Patched(rate, channels, 2 * |Flatten(blocks)| + 36, 2 * |Flatten(blocks)|, Data(Flatten(blocks)));
    DecodesWritten(rate, channels, Flatten(blocks));
  }

  lemma EmptyData(h: seq<byte>)
    ensures h + Data(Flatten([])) == h
  {}
}
