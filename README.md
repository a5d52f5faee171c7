# audio-checker: WAVEFORMATEX decoding and format-change detection

audio-checker polls the default Windows audio output device once a second,
reads its mix format and prints a line whenever the format changes. This
project models the two pieces of `check_audio.py` that have a contract of
their own:

- `parse_waveformat`, which decodes Microsoft's WAVEFORMATEX structure
  (`mmreg.h`, 18 bytes) and, for an extensible tag with a large enough
  `cbSize`, the 22-byte WAVEFORMATEXTENSIBLE extension (`ksmedia.h`) out of
  raw memory into a dictionary of eight fields;
- the change-detection rule of the main loop, which prints a format only
  when it differs from the one printed last.

Modules:

- `Wrappers` (`wrappers.dfy`): `Option` and `Result`.
- `LittleEndian` (`little_endian.dfy`): bytes, the `<H` and `<I` codes of
  Python's `struct` module, packing and unpacking, both round trips.
- `Hex` (`hex.dfy`): Python's `hex()` on non-negative integers, with its
  inverse and its canonical form (lower case, no leading zeros).
- `WaveFormat` (`waveformat.dfy`): the header and extension records, the
  returned `Format` record, `ParseWaveFormat` and its properties.
- `Monitor` (`monitor.dfy`): the loop as a one-variable state machine over a
  sequence of polls, the method `Watch` that runs it, and its properties.

Memory is the whole address space as a sequence of bytes and an address is
an `Option<nat>` index into it. Python's `if not addr` is true both for
`None` and for `0`, so both count as null. The source trusts the platform to
have 18 readable bytes at a non-null address, and 40 when the extension is
read (`check_audio.py` lines 23 and 30); the model states that trust as the
precondition `Trusted` and adds no runtime check.

Three details of the code the model keeps:

- The null address raises a plain `RuntimeError("GetMixFormat returned NULL")`,
  modelled as `Failure(NullMixFormat)`.
- `cbSize` is reported as read, whatever it is; it is not forced to 0 when
  the extension is absent.
- The loop compares whole dictionaries, so the label `format_tag_str` takes
  part in change detection. `FormatEqualityIgnoresLabel` and
  `TagLabelInjective` show that this makes no difference for parsed formats.

## Model

| member | source | states |
|---|---|---|
| LittleEndian.U16RoundTrip | check_audio.py:24-25 | unpacking `<H` from the packed bytes of a 16-bit value gives the value back |
| LittleEndian.ToU16 | check_audio.py:24-25 | unpacking `<H` from any 2 bytes and packing the value again gives the same 2 bytes, so the decoding is a bijection |
| LittleEndian.U32RoundTrip | check_audio.py:24-25 | unpacking `<I` from the packed bytes of a 32-bit value gives the value back |
| LittleEndian.ToU32 | check_audio.py:24-25 | unpacking `<I` from any 4 bytes and packing the value again gives the same 4 bytes |
| Hex.Digits | check_audio.py:45 | the digits of a number are lower-case hex digits, at least one, with no leading zero unless the number is 0 |
| Hex.PythonHex | check_audio.py:45 | `hex(n)` is "0x" followed by a canonical digit string |
| Hex.DigitsRoundTrip | check_audio.py:45 | reading back the digits of `n` gives `n` |
| Hex.ValueRoundTrip | check_audio.py:45 | every canonical digit string is the digit string of its own value, so the form is unique |
| Hex.PythonHexInjective | check_audio.py:45 | `hex(m) == hex(n)` exactly when `m == n` |
| WaveFormat.ParseWaveFormat | check_audio.py:17-52 | parsing fails exactly when the address is null (None or 0), and succeeds otherwise |
| WaveFormat.NullAddressFails | check_audio.py:18-20 | a null address raises `NullMixFormat` whatever memory holds, so no byte is read |
| WaveFormat.HeaderRoundTrip | check_audio.py:23-25 | packing the seven header fields as `<HHIIHHH` into 18 bytes and unpacking them gives the same fields |
| WaveFormat.UnpackHeader | check_audio.py:23-25 | unpacking any 18 bytes and packing the seven fields again gives the same bytes |
| WaveFormat.ExtensionRoundTrip | check_audio.py:30-32 | packing valid bits, channel mask and the 16-byte sub-format as `<HI16s` and unpacking gives them back |
| WaveFormat.UnpackExtension | check_audio.py:30-32 | unpacking any 22 extension bytes gives a 16-byte sub-format, and packing the fields again gives the same bytes |
| WaveFormat.HasExtension | check_audio.py:29 | the extension is read only for a header whose tag has the label "EXTENSIBLE" (and whose cbSize is at least 22) |
| WaveFormat.ReportedBits | check_audio.py:27-34 | the depth is the container width without extension; with one it is the valid bits when nonzero, and otherwise the container width |
| WaveFormat.TagLabel | check_audio.py:45 | the label is non-empty; it starts with a digit exactly when the tag is not 1, 3 or 0xFFFE, and then it is "0x" followed by canonical lower-case hex digits |
| WaveFormat.ParsedFields | check_audio.py:27-52 | at a non-null address tag, label, channels, rate, bytes/s, block align and cbSize are the header fields unchanged; the bit depth is the header's without the extension, and with it the valid bits when nonzero, else the header's |
| WaveFormat.BaseReadsOnlyHeader | check_audio.py:22-29 | with no extension, two memories that agree on [addr, addr+18) give the same result, whatever the bytes after them |
| WaveFormat.ExtensibleReadsOnlyForty | check_audio.py:29-32 | two memories that agree on [addr, addr+40) give the same result |
| WaveFormat.ParsePackedBase | check_audio.py:22-29 | a header without extension packed at a non-null address, followed by any bytes, parses to its own fields with its own bit depth |
| WaveFormat.ParsePackedExtensible | check_audio.py:29-34 | an extensible header with cbSize at least 22 and a packed extension parse to the header's fields, label "EXTENSIBLE", and the valid bits as depth when nonzero, else the container width |
| WaveFormat.TagLabelExamples | check_audio.py:45 | 1 is "PCM", 3 is "IEEE_FLOAT", 0xFFFE is "EXTENSIBLE", 0x55 is "0x55", 0 is "0x0", 0xFFFF is "0xffff" |
| WaveFormat.TagLabelInjective | check_audio.py:45 | two tags have the same label exactly when they are equal |
| WaveFormat.FormatEqualityIgnoresLabel | check_audio.py:43-52 | for formats carrying their tag's label, equality of the whole record is equality of the seven numeric fields |
| WaveFormat.ParsedLabelMatchesTag | check_audio.py:45 | every successful parse carries the label of its own tag |
| Monitor.Step | check_audio.py:65-73 | a failed poll changes nothing; after a read `prev` holds the format read, and at most that format is printed |
| Monitor.Run | check_audio.py:64-74 | the loop never retracts a printed line and prints at most one line per poll |
| Monitor.PollOf | check_audio.py:65-66 | a poll fails exactly when the parse raised, and otherwise reads the parsed format |
| Monitor.ParsedPoll | check_audio.py:18-45 | a poll fed from the parser fails exactly for a null address, and a read carries its own tag's label |
| Monitor.ParsedPollsCompareOnNumbers | check_audio.py:67 | for two polls fed from the parser, the whole-format comparison is a comparison of the seven numeric fields |
| Monitor.Watch | check_audio.py:62-73 | the loop prints exactly the formats that the state machine `Run` emits from the initial state |
| Monitor.FailedPollChangesNothing | check_audio.py:72-73 | a poll that raises changes neither `prev` nor the printed formats |
| Monitor.StepKeepsConsistent | check_audio.py:67-71 | one iteration keeps `prev` equal to the format printed last and never prints the same format twice in a row |
| Monitor.RunKeepsConsistent | check_audio.py:62-71 | after any polls `prev` is the last printed format (`None` if none) and no two consecutive printed formats are equal |
| Monitor.PrevIsLastRead | check_audio.py:62-71 | after any polls `prev` is the most recent successfully read format |
| Monitor.EmitsExactlyOnChange | check_audio.py:67-71 | a successful poll prints its format exactly when it differs from the last printed one, on every field including the label |
| Monitor.EmitsWhenReadDiffers | check_audio.py:67-71 | a successful poll prints its format exactly when it differs from the most recent successful read |
| Monitor.FirstReadEmitted | check_audio.py:62-71 | polls that all failed print nothing, and the first successful poll after them prints its format |

## Left out

- `_get_ptr_address` and the ctypes casts (check_audio.py:10-15, 37): foreign-memory plumbing; the address is an optional index into the memory sequence instead.
- `CoTaskMemFree` and the exceptions swallowed around it (check_audio.py:36-41): a foreign deallocation with no effect on the result.
- `get_default_output_format` (check_audio.py:54-59): COM device activation and `GetMixFormat` are operating-system calls; each poll's outcome is an input of the model.
- `time.sleep`, the `print` formatting and the `KeyboardInterrupt` handling (check_audio.py:68-76): timing and console I/O; only the decision to print is modelled.
- Monitor.Watch: the source loops forever; the model runs over a finite sequence of polls, which covers every finite prefix of a run.
- The channel mask and the sub-format GUID (check_audio.py:32) are unpacked but never used in the result, so nothing is proved about them beyond the extension round trips.
- A buffer shorter than the platform promises (fewer than 18 bytes, or fewer than 40 for the extension) is outside the model: the source reads it without a check, and the model requires it away with `Trusted`.
