/**
 * Decoding of the Win32 mix-format structures WAVEFORMATEX (`mmreg.h`) and
 * WAVEFORMATEXTENSIBLE (`ksmedia.h`) out of raw memory, as
 * `parse_waveformat` in check_audio.py does it.
 *
 * Memory is the whole address space as a byte sequence; an address is an
 * index into it, or absent. As in Python, where `not addr` holds both for
 * `None` and for `0`, an absent address and address 0 are both null.
 */
module WaveFormat {
  import opened Wrappers
  import opened LittleEndian
  import Hex

  /** `WAVEFORMATEX_SIZE`: bytes in the base WAVEFORMATEX header. */
  const BaseSize := 18

  /** Bytes of the WAVEFORMATEXTENSIBLE extension read after the header. */
  const ExtensionSize := 22

  const WaveFormatPcm: U16 := 1
  const WaveFormatIeeeFloat: U16 := 3
  const WaveFormatExtensible: U16 := 0xFFFE

  /** The base header, field by field, as `struct.unpack('<HHIIHHH', base)` yields it. */
  datatype Header = Header(
    wFormatTag: U16,
    nChannels: U16,
    nSamplesPerSec: U32,
    nAvgBytesPerSec: U32,
    nBlockAlign: U16,
    wBitsPerSample: U16,
    cbSize: U16)

  /** The extension, as `struct.unpack('<HI16s', ext_bytes)` yields it. */
  datatype Extension = Extension(
    wValidBitsPerSample: U16,
    dwChannelMask: U32,
    subFormat: seq<Byte>)

  predicate ValidExtension(e: Extension) {
    |e.subFormat| == 16
  }

  /** The dictionary `parse_waveformat` returns, one field per key. */
  datatype Format = Format(
    formatTag: U16,
    formatTagStr: string,
    channels: U16,
    sampleRate: U32,
    bitsPerSample: U16,
    avgBytesPerSec: U32,
    blockAlign: U16,
    cbSize: U16)

  /** The `RuntimeError("GetMixFormat returned NULL")` raised for a null address. */
  datatype ParseError = NullMixFormat

  type Address = Option<nat>

  predicate IsNull(addr: Address) {
    addr.None? || addr.value == 0
  }

  /** `struct.unpack('<HHIIHHH', base)`: packing the fields again gives back the same 18 bytes. */
  function UnpackHeader(b: seq<Byte>): (h: Header)
    requires |b| == BaseSize
    ensures PackHeader(h) == b
  {
    assert b == b[0..2] + b[2..4] + b[4..8] + b[8..12] + b[12..14] + b[14..16] + b[16..18];
    Header(ToU16(b[0..2]), ToU16(b[2..4]), ToU32(b[4..8]), ToU32(b[8..12]),
           ToU16(b[12..14]), ToU16(b[14..16]), ToU16(b[16..18]))
  }

  function PackHeader(h: Header): (b: seq<Byte>)
    ensures |b| == BaseSize
  {
    FromU16(h.wFormatTag) + FromU16(h.nChannels) + FromU32(h.nSamplesPerSec) +
    FromU32(h.nAvgBytesPerSec) + FromU16(h.nBlockAlign) + FromU16(h.wBitsPerSample) +
    FromU16(h.cbSize)
  }

  /** `struct.unpack('<HI16s', ext_bytes)`: packing the fields again gives back the same 22 bytes. */
  function UnpackExtension(b: seq<Byte>): (e: Extension)
    requires |b| == ExtensionSize
    ensures ValidExtension(e) && PackExtension(e) == b
  {
    assert b == b[0..2] + b[2..6] + b[6..22];
    Extension(ToU16(b[0..2]), ToU32(b[2..6]), b[6..22])
  }

  function PackExtension(e: Extension): (b: seq<Byte>)
    requires ValidExtension(e)
    ensures |b| == ExtensionSize
  {
    FromU16(e.wValidBitsPerSample) + FromU32(e.dwChannelMask) + e.subFormat
  }

  /** The extension is read exactly for an extensible tag whose cbSize covers it. */
  predicate HasExtension(h: Header): (r: bool)
    ensures r ==> TagLabel(h.wFormatTag) == "EXTENSIBLE"
  {
    h.wFormatTag == WaveFormatExtensible && h.cbSize >= ExtensionSize
  }

  /**
   * What `parse_waveformat` trusts the platform for: a non-null address
   * has the 18 header bytes behind it, and 22 more when the header
   * announces the extension.
   */
  predicate Trusted(mem: seq<Byte>, addr: Address) {
    IsNull(addr) ||
    (addr.value + BaseSize <= |mem| &&
     (HasExtension(UnpackHeader(mem[addr.value..addr.value + BaseSize])) ==>
        addr.value + BaseSize + ExtensionSize <= |mem|))
  }

  /** The tags `parse_waveformat` knows by name. */
  predicate IsNamedTag(tag: U16) {
    tag == WaveFormatPcm || tag == WaveFormatIeeeFloat || tag == WaveFormatExtensible
  }

  /** `format_tag_str`: the known tags by name, any other in `hex()` form. */
  function TagLabel(tag: U16): (name: string)
    ensures |name| >= 1
    ensures IsNamedTag(tag) <==> name[0] != '0'
    ensures !IsNamedTag(tag) ==> |name| >= 3 && name[..2] == "0x" && Hex.Canonical(name[2..])
  {
    if tag == WaveFormatPcm then "PCM"
    else if tag == WaveFormatIeeeFloat then "IEEE_FLOAT"
    else if tag == WaveFormatExtensible then "EXTENSIBLE"
    else Hex.PythonHex(tag)
  }

  /** The reported depth: the valid bits of a present extension when nonzero, else the container width. */
  function ReportedBits(h: Header, ext: Option<Extension>): (bits: U16)
    ensures ext.None? ==> bits == h.wBitsPerSample
    ensures bits == h.wBitsPerSample || (ext.Some? && bits == ext.value.wValidBitsPerSample != 0)
    ensures ext.Some? && ext.value.wValidBitsPerSample != 0 ==> bits == ext.value.wValidBitsPerSample
  {
    if ext.Some? && ext.value.wValidBitsPerSample != 0 then ext.value.wValidBitsPerSample
    else h.wBitsPerSample
  }

  function ParseWaveFormat(mem: seq<Byte>, addr: Address): (r: Result<Format, ParseError>)
    requires Trusted(mem, addr)
    ensures r.Failure? <==> IsNull(addr)
  {
    if IsNull(addr) then Failure(NullMixFormat)
    else
      var a := addr.value;
      var h := UnpackHeader(mem[a..a + BaseSize]);
      var ext := if HasExtension(h)
                 then Some(UnpackExtension(mem[a + BaseSize..a + BaseSize + ExtensionSize]))
                 else None;
      Success(Format(h.wFormatTag, TagLabel(h.wFormatTag), h.nChannels, h.nSamplesPerSec,
                     ReportedBits(h, ext), h.nAvgBytesPerSec, h.nBlockAlign, h.cbSize))
  }

  // ---------------------------------------------------------------------
  // Byte layout
  // ---------------------------------------------------------------------

  lemma HeaderRoundTrip(h: Header)
    ensures UnpackHeader(PackHeader(h)) == h
  {
    var b := PackHeader(h);
    assert b[0..2] == FromU16(h.wFormatTag);
    assert b[2..4] == FromU16(h.nChannels);
    assert b[4..8] == FromU32(h.nSamplesPerSec);
    assert b[8..12] == FromU32(h.nAvgBytesPerSec);
    assert b[12..14] == FromU16(h.nBlockAlign);
    assert b[14..16] == FromU16(h.wBitsPerSample);
    assert b[16..18] == FromU16(h.cbSize);
    U16RoundTrip(h.wFormatTag);
    U16RoundTrip(h.nChannels);
    U32RoundTrip(h.nSamplesPerSec);
    U32RoundTrip(h.nAvgBytesPerSec);
    U16RoundTrip(h.nBlockAlign);
    U16RoundTrip(h.wBitsPerSample);
    U16RoundTrip(h.cbSize);
  }

  lemma ExtensionRoundTrip(e: Extension)
    requires ValidExtension(e)
    ensures UnpackExtension(PackExtension(e)) == e
  {
  }

  // ---------------------------------------------------------------------
  // Properties of ParseWaveFormat
  // ---------------------------------------------------------------------

  /** A null address raises, whatever memory holds: no byte is read. */
  lemma NullAddressFails(mem: seq<Byte>, addr: Address)
    requires IsNull(addr)
    ensures ParseWaveFormat(mem, addr) == Failure(NullMixFormat)
  {
  }

  /**
   * Every reported field but the bit depth is the header field unchanged;
   * the bit depth is the container width unless the extension is present
   * and its valid-bits field is nonzero.
   */
  lemma ParsedFields(mem: seq<Byte>, a: nat)
    requires a > 0 && Trusted(mem, Some(a))
    ensures
      var h := UnpackHeader(mem[a..a + BaseSize]);
      var r := ParseWaveFormat(mem, Some(a));
      r.Success? &&
      r.value.formatTag == h.wFormatTag &&
      r.value.formatTagStr == TagLabel(h.wFormatTag) &&
      r.value.channels == h.nChannels &&
      r.value.sampleRate == h.nSamplesPerSec &&
      r.value.avgBytesPerSec == h.nAvgBytesPerSec &&
      r.value.blockAlign == h.nBlockAlign &&
      r.value.cbSize == h.cbSize &&
      (!HasExtension(h) ==> r.value.bitsPerSample == h.wBitsPerSample) &&
      (HasExtension(h) ==>
        var e := UnpackExtension(mem[a + BaseSize..a + BaseSize + ExtensionSize]);
        r.value.bitsPerSample ==
          if e.wValidBitsPerSample != 0 then e.wValidBitsPerSample else h.wBitsPerSample)
  {
  }

  /**
   * Without the extension only [a, a + 18) is read: two memories that agree
   * there parse alike, whatever follows.
   */
  lemma BaseReadsOnlyHeader(mem1: seq<Byte>, mem2: seq<Byte>, a: nat)
    requires a > 0 && a + BaseSize <= |mem1| && a + BaseSize <= |mem2|
    requires mem1[a..a + BaseSize] == mem2[a..a + BaseSize]
    requires !HasExtension(UnpackHeader(mem1[a..a + BaseSize]))
    ensures Trusted(mem1, Some(a)) && Trusted(mem2, Some(a))
    ensures ParseWaveFormat(mem1, Some(a)) == ParseWaveFormat(mem2, Some(a))
  {
  }

  /** With the extension exactly [a, a + 40) is read. */
  lemma ExtensibleReadsOnlyForty(mem1: seq<Byte>, mem2: seq<Byte>, a: nat)
    requires a > 0 && a + BaseSize + ExtensionSize <= |mem1| && a + BaseSize + ExtensionSize <= |mem2|
    requires mem1[a..a + BaseSize + ExtensionSize] == mem2[a..a + BaseSize + ExtensionSize]
    ensures Trusted(mem1, Some(a)) && Trusted(mem2, Some(a))
    ensures ParseWaveFormat(mem1, Some(a)) == ParseWaveFormat(mem2, Some(a))
  {
    var w1, w2 := mem1[a..a + BaseSize + ExtensionSize], mem2[a..a + BaseSize + ExtensionSize];
    assert mem1[a..a + BaseSize] == w1[..BaseSize] == w2[..BaseSize] == mem2[a..a + BaseSize];
    assert mem1[a + BaseSize..a + BaseSize + ExtensionSize] == w1[BaseSize..]
        == w2[BaseSize..] == mem2[a + BaseSize..a + BaseSize + ExtensionSize];
  }

  /**
   * Round trip of a plain WAVEFORMATEX: the header packed at a non-null
   * address, followed by any bytes, parses back to its own fields.
   */
  lemma ParsePackedBase(prefix: seq<Byte>, h: Header, tail: seq<Byte>)
    requires |prefix| > 0 && !HasExtension(h)
    ensures
      var mem := prefix + PackHeader(h) + tail;
      Trusted(mem, Some(|prefix|)) &&
      ParseWaveFormat(mem, Some(|prefix|)) ==
        Success(Format(h.wFormatTag, TagLabel(h.wFormatTag), h.nChannels, h.nSamplesPerSec,
                       h.wBitsPerSample, h.nAvgBytesPerSec, h.nBlockAlign, h.cbSize))
  {
    var mem := prefix + PackHeader(h) + tail;
    var a := |prefix|;
    assert mem[a..a + BaseSize] == PackHeader(h);
    HeaderRoundTrip(h);
  }

  /**
   * Round trip of a WAVEFORMATEXTENSIBLE: header and extension packed at a
   * non-null address parse back with the valid bits as the depth when they
   * are nonzero.
   */
  lemma ParsePackedExtensible(prefix: seq<Byte>, h: Header, e: Extension, tail: seq<Byte>)
    requires |prefix| > 0 && HasExtension(h) && ValidExtension(e)
    ensures
      var mem := prefix + PackHeader(h) + PackExtension(e) + tail;
      var bits := if e.wValidBitsPerSample != 0 then e.wValidBitsPerSample else h.wBitsPerSample;
      Trusted(mem, Some(|prefix|)) &&
      ParseWaveFormat(mem, Some(|prefix|)) ==
        Success(Format(h.wFormatTag, "EXTENSIBLE", h.nChannels, h.nSamplesPerSec,
                       bits, h.nAvgBytesPerSec, h.nBlockAlign, h.cbSize))
  {
    var mem := prefix + PackHeader(h) + PackExtension(e) + tail;
    var a := |prefix|;
    assert mem[a..a + BaseSize] == PackHeader(h);
    assert mem[a + BaseSize..a + BaseSize + ExtensionSize] == PackExtension(e);
    HeaderRoundTrip(h);
    ExtensionRoundTrip(e);
  }

  // ---------------------------------------------------------------------
  // Tag labels
  // ---------------------------------------------------------------------

  lemma TagLabelExamples()
    ensures TagLabel(1) == "PCM" && TagLabel(3) == "IEEE_FLOAT" && TagLabel(0xFFFE) == "EXTENSIBLE"
    ensures TagLabel(0x55) == "0x55" && TagLabel(0) == "0x0" && TagLabel(0xFFFF) == "0xffff"
  {
  }

  /** The label tells tags apart: equal labels mean equal tags. */
  lemma TagLabelInjective(t1: U16, t2: U16)
    ensures TagLabel(t1) == TagLabel(t2) <==> t1 == t2
  {
    if !IsNamedTag(t1) && !IsNamedTag(t2) {
      Hex.PythonHexInjective(t1, t2);
    }
  }

  /**
   * Comparing two parsed formats as dictionaries, label included, is the
   * same as comparing their numeric fields: the label adds nothing.
   */
  lemma FormatEqualityIgnoresLabel(f1: Format, f2: Format)
    requires f1.formatTagStr == TagLabel(f1.formatTag) && f2.formatTagStr == TagLabel(f2.formatTag)
    ensures f1 == f2 <==>
      f1.formatTag == f2.formatTag && f1.channels == f2.channels &&
      f1.sampleRate == f2.sampleRate && f1.bitsPerSample == f2.bitsPerSample &&
      f1.avgBytesPerSec == f2.avgBytesPerSec && f1.blockAlign == f2.blockAlign &&
      f1.cbSize == f2.cbSize
  {
  }

  /** Every successful parse carries the label of its own tag. */
  lemma ParsedLabelMatchesTag(mem: seq<Byte>, addr: Address)
    requires Trusted(mem, addr)
    ensures var r := ParseWaveFormat(mem, addr);
      r.Success? ==> r.value.formatTagStr == TagLabel(r.value.formatTag)
  {
  }
}
