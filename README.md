# Onboard-profile manager for Logitech mice, modelled in Dafny

The program reads and writes the onboard memory of a Logitech gaming mouse
over HID++ 2.0 feature 0x8100 (onboard profiles). It asks the mouse for its
capabilities, reads the profile directory on page 0, and plans which memory
pages hold each profile and its macros. It reads and writes 256- or
1024-byte pages in 16-byte chunks, each page closed by a CRC-16/CCITT
checksum. It turns a profile page into its fields and back: report rate,
DPI list, color, button mappings, name, lighting zones. It renders macro
bytecode, which may chain across pages, as text, parses that text back,
and packs macros into overflow pages. It enables, shows, hides and
switches profiles by patching page 0. Underneath sit the HID++ 2.0 and
HID++ 1.0 request layers: framing, port choice, the reply echo check,
feature-index lookup, device-index detection and the device-name
fragment loop.

The model is split by source file:

- `utils.dfy`: the checksum and `str2int`.
- `macro.dfy`: the macro bytecode.
- `profile.dfy` and `page.dfy`: the profile-page codec.
- `encode.dfy` and `profile_object.dfy`: the profile object and its serializer.
- `packing.dfy`, `packing_as_written.dfy` and `findings.dfy`: macro packing.
- `onboard.dfy`: the memory manager, a class over a simulated mouse.
- `frame.dfy`, `hidpp20.dfy` and `hidpp.dfy`: the request layers.
- `bytes.dfy`, `constants.dfy` and `wrappers.dfy`: the byte primitives and enum tables they share.

Loops in the source are methods proved equal to a specification function,
and the properties are lemmas about those functions. The headline results:

- `Macro.TextRoundTrip`: macro text to bytes and back.
- `ProfilePage.ParseSerialized` and `ProfilePage.SerializeParsed`: a page to fields and back.
- `ProfileEncode.EncodedPageLoads`: the serializer's page loads back.
- `MacroPacking.PackedMacrosReadBack`: every packed macro reads back through its reference, for the corrected loop.
- `AsWrittenPacking.AsWrittenReadBack` and `AsWrittenPacking.PackRefers`: what the packing loop as written achieves.
- `OnboardProfile.ReadAfterWrite`: a page written with its checksum reads back.
- `OnboardProfile.LayoutRowsDisjoint`: the profiles' macro pages never overlap.
- `Utils.Crc16IsPolynomial`: the checksum is the CCITT polynomial division.

## Model

| member | source | states |
|---|---|---|
| Utils.UpdateRegister | libs/utils.py:55-58 | one pass of the loop body gives the new high byte `(lsb ^ (x >> 3) ^ (x << 4)) & 0xFF` and low byte `(x ^ (x << 5)) & 0xFF` of the register, with `x = c ^ msb; x ^= x >> 4` |
| Utils.Crc16Ccitt | libs/utils.py:49-59 | the loop returns the fold `Crc16` of the data: a value in 0..0xFFFF, and 0xFFFF (the initial register) for no data |
| Utils.CheckSteps | libs/utils.py:49-59 | the registers the loop passes through on the ASCII text "123456789" |
| Utils.CheckValue | libs/utils.py:49-59 | the checksum of "123456789" is 0x29B1, the check value of CRC-16/CCITT-FALSE |
| Utils.FeedCons | libs/utils.py:54-58 | feeding one more byte is one more loop pass |
| Utils.FeedAppend | libs/utils.py:54-58 | the checksum is a left fold: feeding `a + b` continues from the register left by `a` |
| Utils.StepIsPolynomial | libs/utils.py:55-58 | one pass on the two register bytes equals the 16-bit update `(r << 8) ^ (x << 12) ^ (x << 5) ^ x` with `x = (r >> 8) ^ c; x ^= x >> 4`, i.e. MSB-first division by 0x1021 |
| Utils.FeedIsPolynomial | libs/utils.py:54-58 | feeding any bytes to any register is the 16-bit update applied to each byte in turn |
| Utils.JoinIsValue | libs/utils.py:59 | `(msb << 8) + lsb` is the 16-bit register with `msb` high |
| Utils.Crc16IsPolynomial | libs/utils.py:49-59 | crc16_ccitt is CRC-16/CCITT in its 16-bit form started from 0xFFFF, with no final XOR |
| Utils.ValueInjective | libs/utils.py:59 | different registers give different returned values |
| Utils.StepInjectiveInRegister | libs/utils.py:55-58 | one pass keeps different registers different |
| Utils.StepInjectiveInByte | libs/utils.py:55-58 | from one register, different bytes give different registers |
| Utils.FeedInjective | libs/utils.py:54-58 | registers that differ stay different whatever bytes follow |
| Utils.FeedDetectsOneChange | libs/utils.py:54-58 | two byte sequences that differ in exactly one position end in different registers |
| Utils.SingleByteChangeDetected | libs/utils.py:49-59 | inputs of equal length differing in exactly one byte (so any single flipped bit) have different checksums |
| Utils.AppendedChecksumVerifies | libs/utils.py:49-59 | a body followed by its big-endian checksum passes the page check, and the same page with one body byte changed fails it |
| Utils.Lower | libs/utils.py:62 | on ASCII letters, `str.lower()` keeps the length and lowers every capital, position by position |
| Utils.Str2Int | libs/utils.py:61-67 | the result is always -1, 0 or 1 |
| Utils.LowerMatchesWord | libs/utils.py:62-64 | a lowered string equals a lower-case word exactly when the two agree ignoring case |
| Utils.Str2IntCaseInsensitive | libs/utils.py:61-67 | 1 exactly for yes/true/y/1/on in any case, 0 exactly for no/false/n/0/off in any case, -1 exactly for every other string |
| HidppFrame.Frame | libs/LogiHPP20.py:179 | the request frame is the 4-byte header `[0x10, device, index, fn << 4 \| 0xF]` followed by the parameters |
| HidppFrame.Pad | libs/LogiHPP20.py:133 | `(data + [0]*n)[:n]`: exactly `n` bytes, the data's where it has them and zeros after |
| HidppFrame.Outgoing | libs/LogiHPP20.py:132-138 | the report written is 7 bytes on the short port or 20 on the long one |
| HidppFrame.PortChoice | libs/LogiHPP20.py:132-138 | the short port is used exactly when it exists, byte 0 is 0x10 and there are at most 7 bytes, padded to 7; otherwise the data is padded or cut to 20 with byte 0 set to 0x11 |
| HidppFrame.LongFrame | libs/LogiHPP20.py:136-137 | a request frame on the long port reads `[0x11, device, index, fn * 16 + 0xF]` followed by the parameters padded or cut to 16 bytes |
| Hidpp20.Ping | libs/LogiHPP20.py:131-153 | with `read_back`, the reply is returned exactly when its first 4 bytes echo the report's header with byte 0 rewritten to 0x11, and `None` otherwise; without it, the reply is empty |
| Hidpp20.EchoOfFrame | libs/LogiHPP20.py:142-153 | a request frame is answered exactly when the reply starts `[0x11, device, index, fn * 16 + 0xF]`, on either port |
| Hidpp20.FeatureIndex | libs/LogiHPP20.py:155-163 | the index found is -1 or a byte |
| Hidpp20.FeatureIndexFromRoot | libs/LogiHPP20.py:155-163 | for a feature other than the root: an unechoed root reply gives -1 after one request; an echoed one gives byte 4 (or -1 when it is 0) after the request is sent twice, and a bare 4-byte echo is the IndexError |
| Hidpp20.Call | libs/LogiHPP20.py:168-180 | the root feature is called without a lookup |
| Hidpp20.CallRequest | libs/LogiHPP20.py:168-180 | an absent feature (-1) writes nothing beyond the lookup and gives `None`; a present one writes exactly one more report, the frame with the feature's index, and gives the ping's result for it |
| Hidpp20.SupportedIff | libs/LogiHPP20.py:165-166 | a feature other than the root is supported exactly when the echoed root reply has a positive byte 4, and the lookup fails exactly on a bare 4-byte echo |
| Hidpp20.ReplyLength | libs/LogiHPP20.py:168-180 | on a device whose replies are 0 or 20 bytes, every accepted reply is 20 bytes |
| Hidpp20.ProgressIff | libs/LogiHPP20.py:214-217 | the fragment loop can make progress on a device exactly when no answered fragment is exactly 4 bytes |
| Hidpp20.FragmentsProgress | libs/LogiHPP20.py:214-217 | a device whose replies are 0 or 20 bytes never answers a fragment with exactly 4 bytes |
| Hidpp20.NamePass | libs/LogiHPP20.py:215-220 | one pass of the fragment loop keeps the name read so far as a prefix and never lets it exceed `name_length`; it strictly grows the name when no answered fragment is 4 bytes |
| Hidpp20.ProgressEnds | libs/LogiHPP20.py:214-220 | on a device that answers no fragment with a bare 4-byte header, the loop ends from every name (`Ends`: along the path of the offsets it actually requests, each pass either stops or grows the name) |
| Hidpp20.EndsWithoutProgress | libs/LogiHPP20.py:214-220 | `Ends` is strictly weaker than that: a device answering 20 bytes at offset 0 and a bare header everywhere else still lets a 16-byte name be read in one pass |
| Hidpp20.NameFrom | libs/LogiHPP20.py:214-220 | wherever the loop ends (`Ends`), the loop's name, when it returns one, is exactly `name_length` bytes and extends the name it started from |
| Hidpp20.NameFromPass | libs/LogiHPP20.py:214-220 | the loop is one pass followed by the loop from the grown name, in result and in reports written |
| Hidpp20.NameLength | libs/LogiHPP20.py:209-212 | the length is byte 4 of an accepted reply to function 0 of feature 0x0005 |
| Hidpp20.DeviceNameOf | libs/LogiHPP20.py:206-221 | wherever the fragment loop ends (`NameEnds`), a returned name is exactly as long as the length the device reported |
| Hidpp20.DeviceNameParts | libs/LogiHPP20.py:206-221 | `get_device_name` is the length lookup (an error, or `None` without feature 0x0005), then the fragment loop from the empty name |
| Hidpp20.FragmentAt | libs/LogiHPP20.py:214-217 | a name read from a point on starts with the answered fragment at that point, cut to the remaining length |
| Hidpp20.NameIsFragments | libs/LogiHPP20.py:214-217 | a name read from the start is made of the answered fragments at 0, 16, 32, … up to its length, so an unanswered fragment means no name |
| Hidpp20.Hidpp20.PingDevice | libs/LogiHPP20.py:131-153 | returns `Ping` of the data and appends the one report written to the trace |
| Hidpp20.Hidpp20.FindFeatureIndex | libs/LogiHPP20.py:155-163 | returns `FeatureIndex` and appends the reports it writes |
| Hidpp20.Hidpp20.CallFeature | libs/LogiHPP20.py:168-180 | returns `Call` and appends the reports it writes |
| Hidpp20.Hidpp20.HasFeature | libs/LogiHPP20.py:165-166 | returns `Supported` and appends the reports it writes |
| Hidpp20.Hidpp20.GetDeviceName | libs/LogiHPP20.py:206-221 | returns `DeviceNameOf` and appends the reports it writes |
| Hidpp20.Hidpp20.ReadNameLength | libs/LogiHPP20.py:209-212 | returns `NameLength` and appends the reports it writes |
| Hidpp20.Hidpp20.ReadName | libs/LogiHPP20.py:213-220 | the while loop returns `NameFrom` from the empty name and appends the reports it writes |
| Hidpp20.Hidpp20.ReadFragment | libs/LogiHPP20.py:215-220 | one iteration of the loop: the pass `NamePass` takes, with its reports |
| Hidpp.ReplyPort | libs/LogiHPP.py:97-115 | the reply comes from the short port exactly for a RAP ping to register 0x80 or 0x81 (an error without a short port), otherwise from the long port, with no header check; whenever the HID++ 2.0 ping accepts a reply this one returns the same reply |
| Hidpp.FeatureIndex | libs/LogiHPP.py:117-121 | the index found is -1 or a byte |
| Hidpp.FeatureIndexFromRoot | libs/LogiHPP.py:117-121 | for a feature other than the root: one request, byte 4 of the reply when positive, else -1; a reply shorter than 5 bytes is the IndexError, whatever its header |
| Hidpp.CallRequest | libs/LogiHPP.py:139-150 | an absent feature fails the assertion before any request; a present one writes exactly the frame with its index and returns the long port's reply |
| Hidpp.SupportedIff | libs/LogiHPP.py:123-124 | a feature other than the root is supported exactly when byte 4 of the root reply is positive, and the lookup fails exactly on a reply shorter than 5 bytes |
| Hidpp.Probe | libs/LogiHPP.py:130-134 | a probe answers whether byte 2 of the reply to function 0 of feature 0x0001 is 1, and never fails with "device not found" itself |
| Hidpp.Detect | libs/LogiHPP.py:126-136 | a found index is one of the listed indices |
| Hidpp.DetectFindsFirst | libs/LogiHPP.py:126-136 | the index found is the first listed one a device answers on, every earlier probe having succeeded with no device |
| Hidpp.FirstHitDetected | libs/LogiHPP.py:126-136 | conversely, the first listed index a device answers on is the one found |
| Hidpp.ProbesKnown | libs/LogiHPP.py:130-134 | no probe fails with "device not found" |
| Hidpp.NotFoundIff | libs/LogiHPP.py:126-136 | the search fails with "device not found" exactly when every listed probe succeeds and finds no device |
| Hidpp.Hidpp.PingDevice | libs/LogiHPP.py:97-115 | returns `Ping` of the data and appends the report written; the device index is unchanged |
| Hidpp.Hidpp.FindFeatureIndex | libs/LogiHPP.py:117-121 | returns `FeatureIndex` and appends the reports it writes |
| Hidpp.Hidpp.CallFeature | libs/LogiHPP.py:139-150 | returns `Call` and appends the reports it writes |
| Hidpp.Hidpp.HasFeature | libs/LogiHPP.py:123-124 | returns `Supported` and appends the reports it writes |
| Hidpp.Hidpp.DetectDeviceIndex | libs/LogiHPP.py:126-136 | the loop over the list returns `Detect` of the device's probes and appends the reports of every probe made |
| Hidpp.Hidpp.Probing | libs/LogiHPP.py:130-134 | one iteration: the probe at the current device index, with its reports |
| Macro.OpLength | libs/HidppMacro.py:8-19 | an instruction is 1, 2, 3 or 5 bytes long |
| Macro.OpLengthByRange | libs/HidppMacro.py:8-19 | the length depends only on bits 7-5: 1 for 0x00-0x1F, 2 for 0x20-0x3F, 3 for 0x40-0x5F, 5 for 0x60-0x7F and 1 for 0x80-0xFF |
| Macro.Fetch | libs/HidppMacro.py:38-49 | an element the decoder keeps is a MacroControl opcode other than chain and end, taken with exactly `get_op_length(op)` bytes from the cursor |
| Macro.ReadStep | libs/HidppMacro.py:37-49 | one pass of the loop either ends with the decoder's answer or moves to a state that decodes to the same answer, one chain hop or some bytes nearer the end |
| Macro.ReadMacroBytes | libs/HidppMacro.py:22-50 | the loop returns `Decode` of the reference; a start page outside the macro pages or a start offset not below `page_size - 10` is refused, and every element returned is one whole instruction |
| Macro.DecodedAreWellFormed | libs/HidppMacro.py:37-49 | every element the decoder returns is a MacroControl opcode other than chain and end followed by exactly its operands |
| Macro.DecodeOkInBounds | libs/HidppMacro.py:38 | a decode that succeeds starts inside its buffer (`data[pos]` never raises on the way to a result) |
| Macro.ChainResume | libs/HidppMacro.py:40-43 | after a chain `[next_page, page, offset]` decoding continues in the target page from byte `2 * offset`: the page is read from `offset` and the cursor, also `offset`, is not reset |
| Macro.ChainToPageStart | libs/HidppMacro.py:40-43 | with offset 0, the only one the encoder writes, a chain resumes at byte 0 of the target page |
| Macro.DecodeConcat | libs/HidppMacro.py:37-49 | whole instructions written one after the other and closed by `macro_end` decode back to the same instructions |
| Macro.ButtonsListed | libs/HidppMacro.py:91-94 | the rendered button list holds exactly the buttons whose bits are set, in ascending order |
| Macro.KeyName | libs/HidppMacro.py:66-72 | the modifier table is looked up before the keycode table; an unknown code is an error |
| Macro.OpName | libs/HidppMacro.py:79 | an opcode is named by its MacroControl member |
| Macro.OpcodeNames | libs/HidppMacro.py:79-87 | sleep, move, wheel, wheelh, pause, repeat and loop each render under their own name |
| Macro.ButtonList | libs/HidppMacro.py:91-94 | the loop over bits 0-4 lists exactly `ButtonsUpTo(val, 5)` |
| Macro.RenderElement | libs/HidppMacro.py:64-99 | the body of the renderer's loop gives the token `RenderOp` of the element |
| Macro.RenderKey | libs/HidppMacro.py:65-76 | a key instruction renders as `+NAME` or `-NAME` with the name of its 16-bit code, or fails |
| Macro.RenderSleep | libs/HidppMacro.py:77-79 | a sleep renders with its big-endian 16-bit duration |
| Macro.RenderWheel | libs/HidppMacro.py:80-82 | a wheel instruction renders with its operand read as a signed byte |
| Macro.RenderMove | libs/HidppMacro.py:83-85 | wire `(s1, s2)` renders as `move(s2, s1)`, both signed big-endian 16-bit |
| Macro.RenderButton | libs/HidppMacro.py:89-99 | a button instruction renders as `+btn(..)` or `-btn(..)` listing the set bits 0-4 as buttons 1-5 |
| Macro.CollapsePair | libs/HidppMacro.py:100-102 | a `+x` followed by `-x` collapses into a bare `x` |
| Macro.MacroBinToText | libs/HidppMacro.py:53-103 | the renderer's loop returns `Render` of the instructions |
| Macro.KeyValue | libs/HidppMacro.py:123-125 | a key name is looked up among the modifiers before the keycodes; an unknown name is an error |
| Macro.Remove | libs/HidppMacro.py:135 | `key_list.remove(k)` takes exactly one occurrence of `k` out of the list |
| Macro.ButtonMask | libs/HidppMacro.py:158-162 | the loop ORs the listed buttons into `MaskFrom(nums, 0)` |
| Macro.MaskBits | libs/HidppMacro.py:158-162 | bit `j` of the mask is set exactly when button `j + 1` is listed and `j < 5`; buttons above 5 are ignored |
| Macro.MaskBound | libs/HidppMacro.py:158-162 | the mask of any list fits in five bits |
| Macro.ButtonsOfMask | libs/HidppMacro.py:158-162 | an ascending list of buttons 1-5 parses to a mask that renders back to the same list |
| Macro.ParseOp | libs/HidppMacro.py:120-172 | a token the parser accepts moves the key list as the source does: `+k` adds a key not held, `-k` removes a held key, every other token keeps it |
| Macro.ParseKey | libs/HidppMacro.py:122-138 | a key token is written as `[key_down or key_up] + BE16(code)`, and a bare key as both, down then up |
| Macro.ParseButtons | libs/HidppMacro.py:157-170 | a button token is written as `[btn_down or btn_up] + BE16(mask)`, and a bare `btn(..)` as both |
| Macro.EncodeOp | libs/HidppMacro.py:120-172 | the body of the parser's loop gives `ParseOp` of the token |
| Macro.MacroBinFromText | libs/HidppMacro.py:107-174 | the parser's loop returns `Parse` of the tokens |
| Macro.ParseBalances | libs/HidppMacro.py:127-135 | whatever the parser accepts from a given key list holds each key at most once in every prefix and releases every key by the end |
| Macro.KeysBalanced | libs/HidppMacro.py:127-173 | a text the parser accepts never presses a held key, never releases a key not held, and leaves no key held |
| Macro.Split | libs/HidppMacro.py:138 | a parsed tap of 6 bytes is a press followed by a release; the parts concatenate to the element |
| Macro.ConcatInstructions | libs/HidppMacro.py:138 | splitting taps changes no byte of the stream |
| Macro.KeyTokRoundTrip | libs/HidppMacro.py:122-138 | a parsed key token is whole instructions that render back as the same token, a tap collapsing back from `+k -k` |
| Macro.SleepTokRoundTrip | libs/HidppMacro.py:151-154 | `sleep(v)` is written as whole instructions that render back as `sleep(v)` |
| Macro.WheelTokRoundTrip | libs/HidppMacro.py:139-143 | `wheel(a)` and `wheelh(a)` are written as whole instructions that render back as themselves |
| Macro.MoveTokRoundTrip | libs/HidppMacro.py:144-150 | `move(a, b)` is packed as `[move, b, a]` and renders back as `move(a, b)` |
| Macro.PlainTokRoundTrip | libs/HidppMacro.py:155-156 | `pause()`, `repeat()` and `loop()` are one opcode byte that renders back as the same call |
| Macro.ButtonTokRoundTrip | libs/HidppMacro.py:163-168 | `+btn(..)` and `-btn(..)` render back as themselves |
| Macro.ButtonTapRoundTrip | libs/HidppMacro.py:169-170 | a bare `btn(..)` is a press and a release that collapse back into it |
| Macro.TokenRoundTrip | libs/HidppMacro.py:120-172 | every renderable token the parser accepts is written as whole instructions that render back as that token |
| Macro.RoundTripFrom | libs/HidppMacro.py:120-172 | rendering the instructions of parsed tokens appends exactly those tokens |
| Macro.TextRoundTrip | libs/HidppMacro.py:107-174 | the bytes the parser writes for a text, closed by `macro_end`, decode to whole instructions that render as the same text, for every text in the renderer's own form |
| ProfileCodec.RateOf | libs/HidppProfile.py:163-181 | the getter accepts exactly bytes 0-6 when extended, giving `[125, 250, …, 8000][raw]`, and exactly 1, 2, 4, 8 otherwise, giving the rate with `rate * raw == 1000`; anything else is refused |
| ProfileCodec.RawOf | libs/HidppProfile.py:183-191 | the setter accepts exactly the seven extended rates (storing their index) or exactly 1000, 500, 250, 125 (storing `1000 / rate`); anything else is refused |
| ProfileCodec.RateRoundTrip | libs/HidppProfile.py:163-191 | getter and setter are inverse in both directions on what each accepts |
| ProfileCodec.Clamp | libs/HidppProfile.py:93-94 | `min(max(v, lo), hi)` lies in `[lo, hi]` and keeps a value already inside |
| ProfileCodec.RgbFromJson | libs/HidppProfile.py:79-114 | a record is always 11 bytes starting with the mode's code; `unknown` passes its raw bytes through; any other unnamed mode is refused |
| ProfileCodec.RgbToJson | libs/HidppProfile.py:50-77 | raw bytes are kept exactly when the mode is not off, on, cycling or breathing, and a named mode is the name of byte 0 |
| ProfileCodec.RgbRoundTrip | libs/HidppProfile.py:50-114 | encoding then decoding a zone gives back its mode, the color of on and breathing, and the clamped duration and brightness of cycling and breathing |
| ProfileCodec.RgbRawRoundTrip | libs/HidppProfile.py:52-54 | an 11-byte record whose code names no mode survives decoding and encoding byte for byte |
| ProfileCodec.RgbOtherModeRejected | libs/HidppProfile.py:62-89 | a record of a named mode without a layout is exported as raw bytes and refused when imported |
| ProfileCodec.KeymapToJson | libs/HidppProfile.py:116-140 | a mouse-button code is tested first; `8002…` is a key, `00…` a macro reference to decode, anything else unknown with its four bytes |
| ProfileCodec.ModifierNames | libs/HidppProfile.py:127-130 | only names of modifiers are listed |
| ProfileCodec.ModifierNamesMember | libs/HidppProfile.py:127-130 | a modifier is listed exactly when its value shares a bit with the flag byte |
| ProfileCodec.ModifierFlag | libs/HidppProfile.py:151-153 | the flags are ORed from the modifier names, and an unknown name fails the assertion |
| ProfileCodec.KeymapFromJson | libs/HidppProfile.py:143-160 | a button gives its four-byte code, a key `0x80020000 \| flag \| code`, unknown its raw bytes, a macro the parsed instructions; any other action is refused |
| ProfileCodec.FlagBits | libs/HidppProfile.py:151-153 | the ORed flag has exactly the bits of the named modifiers |
| ProfileCodec.KeyWordValue | libs/HidppProfile.py:155 | `0x80020000 \| flag \| code` with the flag in the second byte and the code in the first is their sum |
| ProfileCodec.KeyWordFields | libs/HidppProfile.py:123-124 | masking the key word with 0xff00 and 0xff gives back the flag and the code |
| ProfileCodec.NamesOfFlag | libs/HidppProfile.py:127-130 | listing the modifiers of a flag made from names gives back exactly those names |
| ProfileCodec.ButtonRoundTrip | libs/HidppProfile.py:119-121 | a button mapping encodes as its four-byte code and decodes to its name |
| ProfileCodec.UnknownRoundTrip | libs/HidppProfile.py:137-145 | four bytes that are no button, key or macro reference survive as an unknown mapping both ways |
| ProfileCodec.KeyEncodes | libs/HidppProfile.py:148-155 | a key mapping encodes as the key word `0x80020000 + flag + code` |
| ProfileCodec.KeyWordDecodes | libs/HidppProfile.py:122-131 | that key word decodes to the key and to exactly the modifiers whose bits the flag holds |
| ProfileCodec.KeyRoundTrip | libs/HidppProfile.py:116-155 | a key mapping encodes as `8002`, flags, code and decodes to the same key and the same set of modifiers |
| ProfilePage.Read | libs/HidppProfile.py:13-47 | `file.read(n)` returns the next `min(n, remaining)` bytes and moves the cursor past them; a negative count reads to the end |
| ProfilePage.WordsFrom | libs/HidppProfile.py:24-26 | the reads of the button codes never move the cursor more than `count * width` bytes |
| ProfilePage.DpisFrom | libs/HidppProfile.py:16-18 | the five DPI reads move the cursor at most 10 bytes, and a short read is an unpack error |
| ProfilePage.ParseHead | libs/HidppProfile.py:14-21 | the settings reads stay inside the page |
| ProfilePage.ParseButtons | libs/HidppProfile.py:23-33 | the bank reads stay inside the page |
| ProfilePage.WordsFull | libs/HidppProfile.py:24-26 | with enough bytes left the reads take `count` chunks of exactly `width` bytes, which together are the next `count * width` bytes |
| ProfilePage.DpisFull | libs/HidppProfile.py:16-18 | with ten bytes left the five DPI reads succeed and, written back little-endian, are those ten bytes |
| ProfilePage.HeadFull | libs/HidppProfile.py:14-21 | the first 32 bytes load as rate, DPI default and shift, five DPIs, 3 color bytes and 16 bytes of `chunk1`, which written back are those 32 bytes |
| ProfilePage.BankFull | libs/HidppProfile.py:24-33 | a bank of four-byte codes and its padding up to the fixed end are together the bytes between |
| ProfilePage.ButtonsFull | libs/HidppProfile.py:23-33 | bytes 32 to 160 load as `num_buttons` and `num_gbuttons` codes of 4 bytes with paddings filling each bank to 64 bytes |
| ProfilePage.TailFull | libs/HidppProfile.py:35-47 | bytes 160 to `page_size` load as a 48-byte name, four 11-byte lighting records, `page_size - 254` bytes of `chunk2` and the 2-byte checksum |
| ProfilePage.SerializeParsed | libs/HidppProfile.py:12-48 | at the byte level, a page of at least `page_size` bytes loads, every field has its size, and the fields written back in order are the page |
| ProfilePage.ParseShort | libs/HidppProfile.py:45-47 | a page shorter than `page_size` does not load: the checksum's unpack comes up short |
| ProfilePage.DpisRead | libs/HidppProfile.py:15-18 | the DPI list after the loop stops holds exactly the whole little-endian words present, at most five, and equals `DpisFrom`'s list when that succeeds |
| ProfilePage.Loaded | libs/HidppProfile.py:12-48 | after a successful load the attributes are the parsed fields; with fewer than three bytes nothing changes; a short DPI read leaves the three settings and the DPIs read so far and nothing else; any failure keeps the old checksum |
| ProfilePage.TailLoaded | libs/HidppProfile.py:35-47 | the tail attributes equal `ParseTail`'s fields when it succeeds, and keep the old checksum when it fails |
| ProfilePage.ParseOkIff | libs/HidppProfile.py:12-48 | at the byte level, a page loads exactly when it holds `page_size` bytes |
| ProfilePage.HeadInjective | libs/HidppProfile.py:14-21 | settings regions of the right sizes that write the same bytes are equal |
| ProfilePage.ButtonsInjective | libs/HidppProfile.py:23-33 | button regions of the right sizes that write the same bytes are equal |
| ProfilePage.TailInjective | libs/HidppProfile.py:35-47 | tail regions of the right sizes that write the same bytes are equal |
| ProfilePage.SerializedSizes | libs/HidppProfile.py:19-45 | the three regions of a full page are 32, 128 and `page_size - 160` bytes |
| ProfilePage.ParseSerialized | libs/HidppProfile.py:12-48 | loading a page written from fields of the right sizes gives back those fields, whatever follows the page |
| ProfileEncode.RequestedRate | libs/HidppProfile.py:228-231 | the rate comes from `extended_report_rate` when present, else `report_rate`, and is missing exactly when neither is there |
| ProfileEncode.NameField | libs/HidppProfile.py:252 | the padded name is exactly 48 bytes |
| ProfileEncode.Checksummed | libs/HidppProfile.py:256 | the checksum appends exactly two bytes |
| ProfileEncode.LayoutAt | libs/HidppProfile.py:268 | `page_map[profile_index][idx]` is the layout entry when both indices are in range and the IndexError otherwise |
| ProfileEncode.Reference | libs/HidppProfile.py:268 | a reference is four bytes `0`, page, cursor whose big-endian value is `page * 0x10000 + pos`; as written it exists exactly when the page and the cursor each fit in a byte, corrected when the cursor fits in 16 bits |
| ProfileEncode.ChainRecord | libs/HidppProfile.py:279 | `struct.pack('>BHH', next_page, page, 0)` is five bytes: the chain opcode, the page and offset 0, and fails exactly for a page outside 16 bits |
| ProfileEncode.PlaceOpsCons | libs/HidppProfile.py:270-282 | the inner loop places the first instruction, then the rest from the state that leaves, an error on the first being the result |
| ProfileEncode.EndMacro | libs/HidppProfile.py:283-284 | the end marker is stored at the cursor, which moves one on, exactly when the cursor is inside the page; otherwise the IndexError |
| ProfileEncode.DpiBytesOk | libs/HidppProfile.py:235-236 | the DPI loop succeeds exactly when the list has at least five entries and its first five fit in 16 bits, and then appends their little-endian words |
| ProfileEncode.BankStep | libs/HidppProfile.py:242-249 | one pass of the bank loop handles the first mapping and continues with the rest |
| ProfileEncode.SlotSize | libs/HidppProfile.py:244-249 | a binding of four raw bytes or a macro placeholder occupies four bytes |
| ProfileEncode.BankSlots | libs/HidppProfile.py:241-249 | a bank is encoded binding by binding: the page grows by the four bytes of each mapping, in order |
| ProfileEncode.BankMacros | libs/HidppProfile.py:246-249 | every macro of a bank is recorded, after those already recorded, at the offset where its four placeholder bytes `FF FF FF FF` still stand |
| ProfileEncode.MacrosKept | libs/HidppProfile.py:246-249 | one binding of the bank loop: when the bank's final bytes and records extend those after the binding, with every later macro at its `FF FF FF FF` placeholder, they also extend those before it, and every macro from that binding on has its placeholder past the bytes written before it |
| ProfileEncode.RgbZones | libs/HidppProfile.py:253-254 | the lighting loop appends the eleven bytes of each zone, in order |
| ProfileEncode.BodySteps | libs/HidppProfile.py:228-255 | a successful encoding is the rate, the head, the first bank (whose size assertion holds), its padding, the second bank and padding, the name, the lighting records and `chunk2`, in that order |
| ProfileEncode.EncodedHead | libs/HidppProfile.py:232-238 | the bytes before the buttons are the stored rate byte, DPI default and shift, the first five DPIs, the low 24 bits of the color and `chunk1` |
| ProfileEncode.EncodedFields | libs/HidppProfile.py:224-256 | the encoded page, checksum included, is the serialization of fields of the right sizes holding the document's values |
| ProfileEncode.EncodedPageLoads | libs/HidppProfile.py:224-256 | the page the encoder builds loads back with the document's rate, DPI settings, color, byte fields, one binding per button, padded name and lighting records, and its checksum verifies |
| MacroPacking.WriteGrows | libs/HidppProfile.py:272-274 | an instruction with room is written at the cursor, the cursor moves past it, and nothing before the cursor changes |
| MacroPacking.ChainGrows | libs/HidppProfile.py:275-282 | closing a page stores the five-byte chain at the cursor, keeps the closed page as written, and starts a fresh page of `page_size` bytes |
| MacroPacking.PlaceGrows | libs/HidppProfile.py:270-282 | the corrected inner loop writes only at or after the cursor, keeps every page at `page_size` bytes with room for a chain, and leaves the profile page alone |
| MacroPacking.Step | libs/HidppProfile.py:270-282 | the corrected loop places an instruction at the cursor when there is room, else at the start of the next page after a chain to that page at the old cursor |
| MacroPacking.Land | libs/HidppProfile.py:270-282 | where the first placed instruction lies in the pages written at the end |
| MacroPacking.Landings | libs/HidppProfile.py:270-282 | every instruction of a macro lands right after the previous one, or at the start of the next page with a chain at the previous cursor |
| MacroPacking.FetchOp | libs/HidppMacro.py:46-49 | a well-formed instruction at the cursor is emitted whole |
| MacroPacking.EmitElement | libs/HidppMacro.py:46-49 | a packed element at the cursor decodes as the instructions it splits into, and the cursor moves past it |
| MacroPacking.EndAt | libs/HidppMacro.py:44-45 | the end marker at the cursor ends the macro |
| MacroPacking.Hop | libs/HidppMacro.py:40-43 | the chain the packer writes sends the decoder to byte 0 of the next page, one hop spent |
| MacroPacking.PassageOf | libs/HidppProfile.py:270-282 | the way from one placed element to the next, in the stored pages, is one of the two passages the decoder can follow |
| MacroPacking.Cross | libs/HidppMacro.py:37-49 | the decoder follows a passage to the start of the next element |
| MacroPacking.EndPassage | libs/HidppMacro.py:37-49 | an end marker at the end of a passage ends the decoding |
| MacroPacking.ElementPassage | libs/HidppMacro.py:37-49 | decoding from the start of a passage reads the element at its end and goes on from there |
| MacroPacking.EndLanded | libs/HidppProfile.py:283 | the landed end marker ends the decoding started at the cursor before it |
| MacroPacking.ElementLanded | libs/HidppProfile.py:270-274 | decoding from the cursor before a landed element reads it and goes on from the cursor after it |
| MacroPacking.LandedReadBack | libs/HidppProfile.py:270-284 | elements landed one after the other, the end marker last, decode to their instructions |
| MacroPacking.ReadBackStep | libs/HidppProfile.py:270-284 | one landed element read back, then the rest after it |
| MacroPacking.PlacedReadBack | libs/HidppProfile.py:266-284 | a macro packed by the corrected loop, end marker included, decodes from its starting cursor to its instructions, whatever is written later at or after the cursor |
| MacroPacking.TerminatedSmall | libs/HidppProfile.py:283-284 | with the end marker packed as one more instruction, every element still fits an empty page |
| MacroPacking.PackOneStep | libs/HidppProfile.py:266-284 | one pass of the corrected outer loop fills the macro's slot with the reference to where it starts, places it from there, and leaves the rest of the profile page as it is |
| MacroPacking.RefDecode | libs/HidppMacro.py:22-36 | a reference `[0, page] + BE16(pos)` sends the reader to cursor `pos` of `page` |
| MacroPacking.PackOneReadBack | libs/HidppProfile.py:266-284 | the macro one pass packs reads back, through the reference it fills in, as its instructions, whatever later passes add |
| MacroPacking.PackGrows | libs/HidppProfile.py:266-284 | the corrected outer loop writes macro pages only forward and the profile page only in the macros' slots |
| MacroPacking.PackRest | libs/HidppProfile.py:266-284 | one outer pass, seen by the passes after it: they start where it stopped and leave its slot alone |
| MacroPacking.PackAt | libs/HidppProfile.py:266-284 | the states macro `i` is packed from and to, and its slot is unchanged at the end |
| MacroPacking.SlotReadBack | libs/HidppProfile.py:266-285 | the macro packed from `a` to `b` reads back through its slot of the final profile page |
| MacroPacking.PackPages | libs/HidppProfile.py:257-285 | the pages returned are the profile page, the closed macro pages and the last page, in order |
| MacroPacking.StoredPages | libs/HidppProfile.py:257-285 | writing the returned macro pages to the layout row stores every page of the final state |
| MacroPacking.PackedPagesFit | libs/HidppProfile.py:257-285 | every page the corrected packing returns after the profile page has `page_size` bytes, so the page writer accepts each |
| MacroPacking.PackedMacrosReadBack | libs/HidppProfile.py:257-285 | once the returned pages are written to the layout row, every macro slot decodes to that macro's instructions |
| AsWrittenPacking.PlaceInPage | libs/HidppProfile.py:270-274 | where every instruction fits before the last 12 bytes, the loop as written and the corrected loop write them one after the other on the same page and leave the cursor after them |
| AsWrittenPacking.EndInPage | libs/HidppProfile.py:283-284 | storing the end marker after the instructions, as written, gives the same state as packing it as one more instruction |
| AsWrittenPacking.EndHere | libs/HidppProfile.py:283-284 | the end marker alone, stored at the cursor, is the corrected loop's one-byte instruction |
| AsWrittenPacking.OneByteReference | libs/HidppProfile.py:268 | for a cursor below 256, `[0, page, 0, pos]` is the corrected two-byte reference |
| AsWrittenPacking.PackOneInPage | libs/HidppProfile.py:266-284 | one pass of the outer loop that stays in the page is the same in both loops and moves the cursor past the macro and its end marker |
| AsWrittenPacking.PackFromInPage | libs/HidppProfile.py:266-284 | the outer loop, from a cursor that leaves room for all the remaining macros, gives the same state in both loops |
| AsWrittenPacking.PackInPage | libs/HidppProfile.py:257-285 | on 256-byte pages, macros that all fit in the first macro page are packed as written exactly as corrected: the profile page and one 256-byte macro page |
| AsWrittenPacking.AsWrittenReadBack | libs/HidppProfile.py:257-285 | on 256-byte pages, with the macros fitting the first macro page, once the returned pages are stored in the layout row every macro's slot decodes to that macro's instructions |
| AsWrittenPacking.PlaceKeepsFirst | libs/HidppProfile.py:270-282 | the inner loop as written leaves the profile page alone and only moves forward along the layout row |
| AsWrittenPacking.PackOneRefers | libs/HidppProfile.py:266-284 | one outer pass as written fills the macro's slot with `[0, page, 0, pos]` for a macro page of the layout row and changes nothing else of the profile page |
| AsWrittenPacking.PackFromRefers | libs/HidppProfile.py:266-284 | the outer loop as written keeps the profile page's size and every byte below the slots, and every slot ends up referring into the layout row |
| AsWrittenPacking.PackRefers | libs/HidppProfile.py:257-285 | for every page size and every placement, the pages returned as written are the profile page, of its size, and at least one macro page, and every slot holds `[0, page, 0, pos]` with `page` a macro page of the profile's layout row |
| ProfileObject.ReadDpis | libs/HidppProfile.py:16-18 | the loop of five `struct.unpack('<H', read(2))` returns `DpisFrom`: the values read and the cursor after them, or the unpack error on a short read |
| ProfileObject.ReadWords | libs/HidppProfile.py:24-26 | the loop of `read(4)` calls returns `WordsFrom`: the chunks read and the cursor after them |
| ProfileObject.ReadHead | libs/HidppProfile.py:14-21 | the reads up to offset 32 return `ParseHead` of the page |
| ProfileObject.ReadButtons | libs/HidppProfile.py:23-33 | the reads of the two banks return `ParseButtons` of the page |
| ProfileObject.EncodeDpis | libs/HidppProfile.py:235-236 | the DPI loop returns `DpiBytesFrom`, which `DpiBytesOk` characterises |
| ProfileObject.EncodeBank | libs/HidppProfile.py:241-249 | the bank loop returns `BankFrom`, which `BankSlots` and `BankMacros` characterise |
| ProfileObject.EncodeRgb | libs/HidppProfile.py:253-254 | the lighting loop returns `RgbFrom`, which `RgbZones` characterises |
| ProfileObject.PlaceMacro | libs/HidppProfile.py:270-282 | the inner `while data:` loop returns `PlaceOps` of the instructions |
| ProfileObject.PlaceOp | libs/HidppProfile.py:271-282 | one pass of the inner loop returns `PlaceOps` of that one instruction: written at the cursor with room, otherwise the page closed by a chain and the instruction starting the next page (corrected) or lost (as written) |
| ProfileObject.PackMacro | libs/HidppProfile.py:266-284 | one pass of the outer loop returns `PackOne` of the macro |
| ProfileObject.PackMacros | libs/HidppProfile.py:257-285 | the outer loop returns `Pack` of the recorded macros |
| ProfileObject.Profile.constructor | libs/HidppProfile.py:7-10 | a new profile has the rate byte 0 and the manager's page count |
| ProfileObject.Profile.ReportRate | libs/HidppProfile.py:163-181 | the getter is `RateOf` of the stored byte |
| ProfileObject.Profile.SetReportRate | libs/HidppProfile.py:183-191 | a supported rate is stored and the getter then reads it back; an unsupported one fails the assertion and changes nothing |
| ProfileObject.Profile.EncodeProfileBody | libs/HidppProfile.py:225-255 | returns `EncodeBody` of the document and leaves in `_report_rate` the byte of the requested rate, when the setter accepts it |
| ProfileObject.Profile.ProfileBytesFromJson | libs/HidppProfile.py:224-286 | returns `ProfileBytes` with the packing as written, and the getter then reads back the requested rate |
| ProfileObject.Profile.SetHead | libs/HidppProfile.py:14-21 | stores the attributes of the settings region and nothing else |
| ProfileObject.Profile.SetButtons | libs/HidppProfile.py:24-33 | stores the button banks and their paddings and nothing else |
| ProfileObject.Profile.LoadProfileBin | libs/HidppProfile.py:12-48 | at the byte level, the load succeeds exactly when `ParseProfile` does, and then the attributes are the fields parsed; otherwise it fails with the parse's error; either way the attributes are `Loaded`, keeping what was stored before a short read |
| ProfileObject.Profile.LoadTail | libs/HidppProfile.py:35-47 | the reads after offset 160 succeed exactly when `ParseTail` does, with its error otherwise, and store `TailLoaded`: name, zones and rest always, the checksum only when present |
| Hidpp20.BareEchoStalls | libs/LogiHPP20.py:214-217 | a fragment answered with the bare 4-byte header leaves the name as it was, so the next pass repeats the same request |
| Hidpp20.StallingAnswer | libs/LogiHPP20.py:142-153 | the example device echoes every request's header |
| Hidpp20.StallingLookup | libs/LogiHPP20.py:155-163 | on the example device feature 0x0005 is at index 1 |
| Hidpp20.StallingFragment | libs/LogiHPP20.py:215 | on the example device the first fragment comes back as a bare header |
| Hidpp20.StallingDevice | libs/LogiHPP20.py:206-217 | on the example device `get_device_name()` learns a one-byte name and its first pass adds nothing, so the loop does not end (`!Ends`) |
| Hidpp20.NamePassChecked | libs/LogiHPP20.py:215-220 | one pass of the fragment loop with a length check: when it grows the name it strictly lengthens it, never past `name_length` |
| Hidpp20.NameFromChecked | libs/LogiHPP20.py:214-220 | the checked loop ends on every device, and a name it returns has the length the device gave |
| Hidpp20.CheckedAgrees | libs/LogiHPP20.py:214-220 | wherever the loop as written ends (`Ends`), the checked loop returns the same name and writes the same reports |
| PackingAsWritten.FirstMacroPageShort | libs/HidppProfile.py:264 | on 1024-byte pages, even a profile without macros ends in a 256-byte page |
| PackingAsWritten.DroppedAtPageBreak | libs/HidppProfile.py:270-282 | two macros differing only in the instruction that meets the page break are packed into the same pages |
| PackingAsWritten.EndCursorAtLimit | libs/HidppProfile.py:272-284 | on a 256-byte page a 2-byte instruction at cursor 243 still fits, and after the end marker the next macro starts at cursor 246 |
| PackingAsWritten.LimitReferenceRefused | libs/HidppMacro.py:32-33 | the reader refuses a reference to cursor 246 of a 256-byte page |
| PackingAsWritten.CursorOutgrowsReference | libs/HidppProfile.py:268-274 | on 1024-byte pages a macro can run to cursor 256 of the 256-byte first page, and the next macro's one-byte reference then cannot be built |
| OnboardProfile.Header | libs/FeatureOnboardProfile.py:15-17 | a reply header is four bytes |
| OnboardProfile.Next | libs/FeatureOnboardProfile.py:94-97 | every request is recorded in order; only the commit (function 8) changes the pages, storing the staged data as the target page |
| OnboardProfile.Device.constructor | libs/FeatureOnboardProfile.py:12-13 | the device starts with the given capability reply, feature flags and mouse state |
| OnboardProfile.Device.Call | libs/FeatureOnboardProfile.py:76 | one request of feature 0x8100: the reply is `Answer` of the mouse before it and the mouse moves to `Next` |
| OnboardProfile.ReadRequests | libs/FeatureOnboardProfile.py:75-76 | the first `n` chunk requests of a read ask for offsets 0, 16, …, `16 * (n - 1)` of the page |
| OnboardProfile.ReadPage | libs/FeatureOnboardProfile.py:74-79 | a read returns the first `page_size` bytes the mouse holds for the page, and with `verify` only when their checksum matches; it changes nothing but the requests sent |
| OnboardProfile.ChunksBefore | libs/FeatureOnboardProfile.py:75 | a page shorter than `size` fails at a chunk inside the page |
| OnboardProfile.Stamped | libs/FeatureOnboardProfile.py:90-92 | replacing the last two bytes with the checksum keeps the page's length |
| OnboardProfile.ChunkRequests | libs/FeatureOnboardProfile.py:95-96 | chunk write `i` carries bytes `16 * i` to `16 * i + 16` of the data |
| OnboardProfile.StampedVerifies | libs/FeatureOnboardProfile.py:77-78 | a page written with `verify` passes the check of `read_memory_page`, and its body is the body written |
| OnboardProfile.ReadAfterWrite | libs/FeatureOnboardProfile.py:74-97 | writing a page with `verify` and reading it back with `verify` gives the stamped page, with the body written |
| OnboardProfile.CorruptedPageRefused | libs/FeatureOnboardProfile.py:77-78 | a verified page whose body then changes in one byte is refused with a checksum error |
| OnboardProfile.ChunksMakePage | libs/FeatureOnboardProfile.py:95-96 | the chunk writes, put together, are the page |
| OnboardProfile.ChunkParams | libs/FeatureOnboardProfile.py:96 | the parameters of each request, in order |
| OnboardProfile.TruncDiv | libs/FeatureOnboardProfile.py:126 | `int(a / b)` truncates toward zero, also for a negative numerator |
| OnboardProfile.Span | libs/FeatureOnboardProfile.py:129 | `list(range(lo, hi))` is `hi - lo` consecutive numbers from `lo`, or none |
| OnboardProfile.PageLayout | libs/FeatureOnboardProfile.py:120-131 | the layout has an empty row 0 and one row per profile |
| OnboardProfile.LayoutRowAt | libs/FeatureOnboardProfile.py:127-130 | row `i` is the row the loop builds for profile `i` |
| OnboardProfile.LayoutEntry | libs/FeatureOnboardProfile.py:128-129 | row `i` starts with the profile's page, and its page `j` is `num_profiles + (i - 1) * k + j` |
| OnboardProfile.LayoutFits | libs/FeatureOnboardProfile.py:126 | the `num_profiles * k` macro pages fit below the page count after the profile pages and page 0 |
| OnboardProfile.LayoutRowBounds | libs/FeatureOnboardProfile.py:120-131 | every macro page lies between `num_profiles + 1` and `num_pages - 1`, consecutive within its row |
| OnboardProfile.LayoutRowsDisjoint | libs/FeatureOnboardProfile.py:120-131 | the macro pages of two different profiles are different pages |
| OnboardProfile.LayoutRowLength | libs/FeatureOnboardProfile.py:126-130 | each profile gets `k` macro pages when `k` is not negative, and none otherwise |
| OnboardProfile.LayoutOfSixteenPages | libs/FeatureOnboardProfile.py:124 | 16 pages and 5 profiles give `[[], [1, 6, 7], [2, 8, 9], [3, 10, 11], [4, 12, 13], [5, 14, 15]]` |
| OnboardProfile.ParseCapabilities | libs/FeatureOnboardProfile.py:18-26 | an accepted reply has pages of 256 or 1024 bytes, at most 16 buttons, profile format at most 5, and G-shift buttons equal to the buttons or none |
| OnboardProfile.CapabilitiesAccepted | libs/FeatureOnboardProfile.py:18-25 | a reply is accepted exactly when it has 14 bytes, memory layout 1, profile format at most 5, macro format 1, at most 16 buttons and a page size of 256 or 1024 |
| OnboardProfile.SampleG502 | libs/FeatureOnboardProfile.py:16-17 | the sample G502 reply gives five profiles on sixteen 256-byte pages and eleven buttons with G-shift twins |
| OnboardProfile.SlotAt | libs/FeatureOnboardProfile.py:30-40 | marker 0xFF or 0x01 gives no page; otherwise the marker must be 0 and the page the profile's number; the entry is visible exactly when byte 2 is 1 |
| OnboardProfile.Directory | libs/FeatureOnboardProfile.py:30-40 | the directory loads exactly when every entry does, one slot per profile |
| OnboardProfile.Primaries | libs/FeatureOnboardProfile.py:128 | the first column of the layout is each profile's recorded page |
| OnboardProfile.CurrentOf | libs/FeatureOnboardProfile.py:133-136 | the getter returns the profile the mouse has active and records its request |
| OnboardProfile.StampedKeeps | libs/FeatureOnboardProfile.py:206-211 | data written over page 0 before the checksum survives stamping, and every other body byte is kept |
| OnboardProfile.EnableStores | libs/FeatureOnboardProfile.py:195-211 | for a profile other than the active one, the setter stores page 0 with the entry replaced and a new checksum, and caches the new page |
| OnboardProfile.EnableWritesEntry | libs/FeatureOnboardProfile.py:195-211 | enabling or disabling another profile rewrites only its entry before the checksum, writes page 0 with a valid checksum, and the new entry parses to the profile on its own page or disabled |
| OnboardProfile.EntryParses | libs/FeatureOnboardProfile.py:206-209 | `[0, dest, 1, 0]` parses to the profile on its own page and visible, `FF FF FF FF` to a disabled one |
| OnboardProfile.EnableLeavesActive | libs/FeatureOnboardProfile.py:197-202 | nothing is written when the profile is the active one |
| OnboardProfile.VisibilityWritesByte | libs/FeatureOnboardProfile.py:230-244 | showing or hiding an enabled profile whose cached visibility differs, other than hiding the active one, rewrites only its visibility byte with a valid checksum and updates the cache |
| OnboardProfile.VisibilityPath | libs/FeatureOnboardProfile.py:240-244 | the writing path of the setter: page 0 read, byte `4 * (dest - 1) + 2` set, page 0 written with a new checksum |
| OnboardProfile.VisibilityByte | libs/FeatureOnboardProfile.py:243-244 | setting one byte and stamping keeps every other body byte |
| OnboardProfile.ByteRewritten | libs/FeatureOnboardProfile.py:243-244 | that stamped page is page 0 with just the visibility byte changed before the checksum |
| OnboardProfile.SlotReparse | libs/FeatureOnboardProfile.py:31-40 | an entry with its marker and page kept and byte 2 set parses to the same entry with the new visibility |
| OnboardProfile.VisibilityKeepsActiveShown | libs/FeatureOnboardProfile.py:234-236 | hiding the active profile changes nothing |
| OnboardProfile.VisibilityKeepsRest | libs/FeatureOnboardProfile.py:224-244 | the setter switches nothing and writes no page but page 0, and caches nothing for other profiles |
| OnboardProfile.SwitchActivates | libs/FeatureOnboardProfile.py:139-150 | a switch that succeeds leaves the requested profile active, and an index outside 1..`num_profiles` changes nothing |
| OnboardProfile.SwitchShowsDest | libs/FeatureOnboardProfile.py:145-148 | before switching, the setter makes the working profile `dest` visible, not the requested one, and leaves other profiles' cache alone |
| OnboardProfile.SaveMacros | libs/FeatureOnboardProfile.py:109-110 | writing the macro pages never switches profiles |
| OnboardProfile.Save | libs/FeatureOnboardProfile.py:104-110 | the save never switches profiles |
| OnboardProfile.SaveMacrosStores | libs/FeatureOnboardProfile.py:109-110 | each macro page lands unverified on its own page of the row, and no other page changes |
| OnboardProfile.SaveStores | libs/FeatureOnboardProfile.py:104-110 | a save of a profile on its own page puts `data[0]` with a valid checksum on the profile page and page `k` of the data on page `k` of the row, and changes no page outside the row |
| OnboardProfile.LayoutRowDistinct | libs/FeatureOnboardProfile.py:120-131 | a row for a profile recorded on a page at most the profile count lists distinct pages |
| OnboardProfile.OpenSpec | libs/FeatureOnboardProfile.py:12-41 | an opened manager has one slot per profile, one layout row per profile after row 0, 256- or 1024-byte pages, and the layout planned from the directory |
| OnboardProfile.OpenedRowsDistinct | libs/FeatureOnboardProfile.py:28-41 | once opened, the row of every profile on its own page lists distinct pages starting with the profile's own |
| OnboardProfile.ReadChunk | libs/FeatureOnboardProfile.py:75-76 | chunk request `i` is answered with the next 16 bytes of the page, or nothing when the page ends before them |
| OnboardProfile.FeatureOnboardProfile.Open | libs/FeatureOnboardProfile.py:12-41 | the constructor gives `OpenSpec`: the object exists exactly when every check passes, and then holds the capabilities, directory and layout found |
| OnboardProfile.FeatureOnboardProfile.ReadMemoryPage | libs/FeatureOnboardProfile.py:64-79 | returns `ReadPage` of the mouse with the device's page size |
| OnboardProfile.FeatureOnboardProfile.ReadMemoryPageOf | libs/FeatureOnboardProfile.py:74-79 | the loop of chunk requests and the checksum check give `ReadPage` |
| OnboardProfile.FeatureOnboardProfile.WriteMemoryPage | libs/FeatureOnboardProfile.py:81-98 | returns `WritePage` of the mouse with the device's page size |
| OnboardProfile.FeatureOnboardProfile.WriteMemoryPageOf | libs/FeatureOnboardProfile.py:89-97 | the size check, the checksum and the requests give `WritePage` |
| OnboardProfile.FeatureOnboardProfile.SendPage | libs/FeatureOnboardProfile.py:94-97 | begin, one chunk per 16 bytes and commit leave the mouse holding the data as the page, with exactly those requests sent |
| OnboardProfile.FeatureOnboardProfile.GetCurrentProfile | libs/FeatureOnboardProfile.py:133-136 | the getter returns `CurrentOf` |
| OnboardProfile.FeatureOnboardProfile.SetDestProfile | libs/FeatureOnboardProfile.py:170-179 | an index in 1..`num_profiles` becomes the working profile; any other is refused and changes nothing |
| OnboardProfile.FeatureOnboardProfile.SetProfileVisibility | libs/FeatureOnboardProfile.py:223-244 | the setter gives `Visibility` of the mouse and the cache, keeping the object valid |
| OnboardProfile.FeatureOnboardProfile.WriteVisibilityByte | libs/FeatureOnboardProfile.py:242-244 | page 0 is written back with the visibility byte of the working profile set |
| OnboardProfile.FeatureOnboardProfile.SetProfileEnabled | libs/FeatureOnboardProfile.py:185-211 | the setter gives `Enable` of the mouse and the cache, keeping the object valid |
| OnboardProfile.FeatureOnboardProfile.SetCurrentProfile | libs/FeatureOnboardProfile.py:138-150 | the setter gives `Switch` of the mouse and the cache, keeping the object valid |
| OnboardProfile.FeatureOnboardProfile.SaveProfile | libs/FeatureOnboardProfile.py:104-110 | the save gives `Save` of the mouse |
| OnboardProfile.FeatureOnboardProfile.CalcPageLayout | libs/FeatureOnboardProfile.py:120-131 | the loop returns `PageLayout` of the directory's pages |
| Bytes.BE16 | libs/HidppProfile.py:279 | `struct.pack('>H', n)` is two bytes |
| Bytes.ReadBE16 | libs/HidppMacro.py:78 | `struct.unpack('>H', s)` is the word that packs back to `s` |
| Bytes.LE16 | libs/HidppProfile.py:236 | `struct.pack('<H', n)` is two bytes |
| Bytes.ReadLE16 | libs/HidppProfile.py:18 | `struct.unpack('<H', s)` is the word that packs back to `s` |
| Bytes.BE32 | libs/HidppProfile.py:147 | `struct.pack('>I', n)` is four bytes |
| Bytes.ReadBE32 | libs/HidppMacro.py:32 | `offset.to_bytes(4)` read back is the word that packs back to the four bytes |
| Bytes.BE16RoundTrip | libs/HidppMacro.py:32 | unpacking a packed 16-bit word gives it back |
| Bytes.BE32RoundTrip | libs/HidppMacro.py:32 | unpacking a packed 32-bit word gives it back |
| Bytes.SignedByte | libs/HidppMacro.py:81 | `struct.unpack('b', ...)` lies in -128..127 |
| Bytes.FromSignedByte | libs/HidppMacro.py:143 | `struct.pack('b', v)` reads back as `v` |
| Bytes.SignedBE16 | libs/HidppMacro.py:84 | `struct.unpack('>h', ...)` lies in -32768..32767 |
| Bytes.FromSignedBE16 | libs/HidppMacro.py:150 | `struct.pack('>h', v)` is two bytes that read back as `v` |
| Bytes.Fill | libs/HidppProfile.py:264 | `b'\xFF' * n` is `n` copies of the byte |
| Bytes.Drop | libs/HidppMacro.py:34 | `s[a:]` has `max(0, len(s) - a)` elements |
| Bytes.Slice | libs/HidppProfile.py:252 | `s[a:b]` is clamped to the sequence |
| Bytes.PadTo | libs/LogiHPP20.py:133 | `(s + [0] * n)[:n]` has exactly `n` elements: those of `s`, then zeros |
| Bytes.SliceAssign | libs/HidppProfile.py:273 | the bytearray slice assignment `s[a:b] = x` keeps the bytes before `a`, puts `x` at `a`, and appends when `a` is past the end |
| Bytes.SliceAssignInPlace | libs/HidppProfile.py:273 | within bounds, `s[a:a+len(x)] = x` overwrites exactly those bytes |
| Bytes.ConcatAppend | libs/HidppProfile.py:245 | joining two lists of byte strings is joining each and concatenating |
| Constants.ValueOf | libs/HidppProfile.py:147 | `E[name]` succeeds exactly for a member's name, giving its code |
| Constants.NameOf | libs/HidppProfile.py:121 | `E(v).name` succeeds exactly for a member's code, giving its name |
| Constants.NameValueAgree | libs/HidppProfile.py:119-121 | in an enum without duplicates a member's name and code determine each other |
| Constants.Members | libs/HidppMacro.py:39 | the MacroControl table holds its thirteen named opcodes and any others |
| Macro.ChainStep | libs/HidppMacro.py:40-43 | one chain step reads the target page from the chain's offset, one hop spent |
| Macro.ChainFetched | libs/HidppMacro.py:41 | the opcode and two big-endian words at the cursor are read as a chain |
| Macro.EmitStep | libs/HidppMacro.py:46-49 | one emitting step appends the element and moves the cursor past it |
| Macro.RenderStep | libs/HidppMacro.py:64-102 | one pass of the renderer's loop appends the token and collapses a `+x -x` pair |
| Macro.SingleRenders | libs/HidppMacro.py:64-102 | a token that closes no pair is appended as it is |
| Macro.TapRenders | libs/HidppMacro.py:100-102 | a press and the matching release render as the bare tap |
| Macro.ParseFromStep | libs/HidppMacro.py:120-172 | one pass of the parser's loop handles the first token and continues from the keys it leaves |
| Hidpp20.Flat | libs/LogiHPP20.py:168-180 | `call_feature` fails exactly when the lookup or the ping fails |
| Hidpp20.FragmentsWhole | libs/LogiHPP20.py:215-217 | a device with 20-byte replies sends whole fragments |
| Hidpp.DetectStep | libs/LogiHPP.py:126-136 | the search from position `k` is the probe there, then the search from `k + 1` |
| ProfileCodec.Low24 | libs/HidppProfile.py:237 | the low three bytes of `struct.pack('>I', c)` |
| ProfileCodec.ListedIsNamed | libs/HidppProfile.py:127-130 | every modifier listed for a flag made from names is one of those names |
| ProfileCodec.NamedIsListed | libs/HidppProfile.py:127-130 | every named modifier is listed for the flag made from the names |

## Left out

- Macro text is modelled as a list of tokens (the `Token` datatype in `macro.dfy`), not as a string. `text.lower()`, the split on spaces and the `re.findall` number extraction (libs/HidppMacro.py:116, 141, 146, 153, 158) are not modelled. Numbers arrive already parsed, and the renderer's output is the token list before `' '.join`. Because a call token keeps only its name and its numbers, the parser's `'()' in op` test (libs/HidppMacro.py:155) is modelled as "the call has no numbers". The two differ only on text the renderer never writes: `pause(x)` has no `()`, so the source rejects it where the model emits `pause`; `btn(x)` goes to the source's button branch and packs an empty mask, where the model rejects it as an unknown opcode; and `btn1()` makes the source look up the opcode `btn1`, where the model packs button 1.
- ProfileCodec.KeymapFromJson: takes the modifier names already split. The `replace(',', '+').split('+')` and `strip()` of libs/HidppProfile.py:151 are not modelled.
- Hidpp20.DeviceNameOf: returns the name as the bytes the device sent. The final `.decode('utf-8')` (libs/LogiHPP20.py:221) is not modelled, because there is no text decoding in this model.
- The transport is a pure function from the report written to the reply read (`Answer` in `hidpp20.dfy`, `Reader` in `hidpp.dfy`). Read timeouts, errors of the HID library, the receiver sub-index probing and USB enumeration (libs/LogiHPP20.py:4-121, libs/LogiHPP.py:3-87) are not modelled.
- Hidpp20.ReplyLength and Hidpp20.FragmentsProgress: assume a device whose replies are 0 or 20 bytes (`LongReplies`). This is what a long HID++ report gives, but the model does not derive it from the HID layer.
- Hidpp20.Hidpp20.GetDeviceName and Hidpp20.Hidpp20.ReadName: require that the fragment loop ends (`NameEnds`, `Ends`): along the offsets the loop requests, no pass answers a bare 4-byte header, because at such an offset the source requests the same fragment forever (see Findings). A device that answers a bare header only at offsets the loop never reaches is covered (`EndsWithoutProgress`), and so is every device with `Progress` (`ProgressEnds`). `NameFromChecked` is the loop with the length check, which ends on every device.
- Macro.ReadMacroBytes: follows at most `fuel` chain opcodes. The source has no cycle detection, so a chain cycle on the device makes it loop forever, which the model cannot express. Running out of fuel is an error of the model.
- The `HidppConstants` enums (MacroControl, RGBMode, MouseButton, KeyCode, Modifier) are not part of this model's sources. They are abstract name/code tables passed as parameters, which assume only what the code needs: names and codes unique within a table, the MacroControl opcodes distinct, and no key name containing `(`. The source applies `in` to these tables in two ways: to a string it tests member names (`k in Modifier`, `k in KeyCode`, `j['mode'] in RGBMode` at libs/HidppMacro.py:124 and libs/HidppProfile.py:82, 152, 154), and to an int it tests codes (`op_code in MacroControl`, `val in Modifier`, `keyval in MouseButton` at libs/HidppMacro.py:39, 67, 69 and libs/HidppProfile.py:119, 131). A stock `enum.Enum` on the Python versions this code needs tests values only, so the model assumes the tables answer `in` both by name and by code, as they must for the string tests to succeed.
- The `all-escapes` codec, the JSON document and the UTF-16 profile name are raw byte sequences and datatypes. `profile_to_json` (libs/HidppProfile.py:193-222) is not modelled beyond the per-field converters it calls.
- Utils.Lower: lowers ASCII capitals only. Python's `str.lower()` also maps non-ASCII capitals ('É' to 'é') and can lengthen a string ('\u0130' becomes 'i' followed by U+0307); Unicode case mapping is not modelled. `Str2Int` still gives Python's result on every string: its ten words are ASCII, and the only non-ASCII characters that lower to something containing an ASCII letter are U+212A (to 'k') and U+0130 (to 'i' plus U+0307), while no word contains 'k' or 'i'.
- ProfilePage.SerializeParsed, ProfilePage.ParseOkIff and ProfileObject.Profile.LoadProfileBin: hold at the byte level. The name is kept as its 48 raw bytes, so the `UnicodeDecodeError` that `decode('utf-16')` at libs/HidppProfile.py:36 raises on a name that is not valid UTF-16 (an unpaired surrogate, for instance) is not modelled.
- HidppFrame.Outgoing, Hidpp.Ping and Hidpp20.Ping: require a first byte when there is a short port. On empty data the source's `data[0]` (libs/LogiHPP.py:98, libs/LogiHPP20.py:131) raises IndexError; every caller sends a header of at least four bytes, so that error is not modelled.
- `int(1000 / x)` in the report-rate setter is floating point. On the accepted rates it is an exact division, so it is modelled as integer division.
- `Profile(None)`, which sets 16 pages without a manager (libs/HidppProfile.py:10), is not modelled. The command line always passes the manager.
- `onboard_mode`, `onboard_profile_to_bin`, `profile_bin_from_json`, `profile_bin_to_json`, `info_display` and `close` of libs/FeatureOnboardProfile.py are not modelled. They are one-call wrappers or printing.
- `detect_device`, `get_feature_list`, `protocol`, `hidpp20_info` and `list_devices` of the request layers, the command line `omm.py`, and the file and print helpers of `libs/utils.py` (lines 3-46) are not modelled. They are I/O or printing.
- The `print` messages of the guards are not modelled. A guard that prints and returns is a successful outcome that changes nothing.
- AsWrittenPacking.AsWrittenReadBack: requires 256-byte pages and all macros ending at least 12 bytes before the end of the first macro page (`InOnePage`). The loop as written still reads back when the last instruction ends at byte 245 and its end marker sits there, so this bound is two bytes stricter than necessary. Macros that spill onto a second page as written are covered only by `PackRefers`, which gives the references but no read-back, because the dropped instruction makes such macros unreadable in general (see Findings).

## Findings

| source | as written | input that shows it | evidently intended | confidence | as-written member | corrected member |
|---|---|---|---|---|---|---|
| libs/HidppProfile.py:264 | the first macro page is `bytearray(b'\xFF'*256)` whatever the page size | page size 1024, a profile without macros: the last page returned is 256 bytes, and `write_memory_page` refuses it (libs/FeatureOnboardProfile.py:89) | the first macro page has `page_size` bytes, like the pages after it | not executed | PackingAsWritten.FirstMacroPageShort | MacroPacking.PackedPagesFit |
| libs/HidppProfile.py:270-282 | the instruction popped when there is no room is never written: the page is closed and the loop goes on with the next one | two macros that differ only in the instruction meeting the page break are packed into the same pages | the instruction goes to the start of the next page | not executed | PackingAsWritten.DroppedAtPageBreak | MacroPacking.PackedMacrosReadBack |
| libs/HidppProfile.py:272 | the room check `pos + len(op_bin) <= size - 11`, with the end marker written after the loop without a check | 256-byte pages, a 2-byte instruction at cursor 243: the next macro starts at cursor 246, which the reader refuses (libs/HidppMacro.py:33) | every macro starts where the reader accepts it, below `page_size - 10` | not executed | PackingAsWritten.EndCursorAtLimit | MacroPacking.PackedMacrosReadBack |
| libs/HidppMacro.py:33 | the reader refuses a start offset of `page_size - 10` or more | the reference `[0, page, 0, 246]` on 256-byte pages | the packer never produces such a reference | not executed | PackingAsWritten.LimitReferenceRefused | MacroPacking.PackedMacrosReadBack |
| libs/HidppProfile.py:268 | the reference stores the cursor in one byte: `bytearray([0, page, 0, pos])` | page size 1024, a 5-byte instruction at cursor 250 of the first macro page: the next macro's cursor is 256, and building the reference raises `ValueError` | the cursor takes the two low bytes, as the reader's `'>HH'` expects | not executed | PackingAsWritten.CursorOutgrowsReference | ProfileEncode.Reference |
| libs/LogiHPP20.py:214-217 | a fragment reply is added as `frag[4:...]` whenever it is non-empty | a device that answers the fragment request with just the 4-byte echo header: `name` never grows and the loop repeats the same request forever | a fragment with no name bytes ends the read with an error | not executed | Hidpp20.StallingDevice | Hidpp20.NameFromChecked |
