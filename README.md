# HNBT core in Dafny

HNBT is a text notation for NBT tag trees. This project models the part of the
HNBT Java library that does not go through a generated ANTLR parser:

- **`StringUtil`** (`string_util.dfy`, module `StringUtil`):
  - the three decoders for one escape piece: a two-character escape, a `\u…` Unicode escape, and an octal escape;
  - `characterLiteralWithoutSingleQuotes`;
  - the `escapedString` encoder and its `StringBuilder` loop.
- **`ByteList`** (`byte_list.dfy`, module `ByteLists`): a growable byte buffer.
  - It is a class over an `array<Int8>` and a `size`.
  - It has `grow`, `hugeCapacity`, `ensureCapacity`, `add` and `toArray`, with Java's 32-bit `int` arithmetic written out.
- **`IndentAddingAppendable`** (`indenting.dfy`, module `Indenting`):
  - an `Appendable` that writes an indent string before every character that follows a newline and is not one;
  - a class with the same one-bit state, its three `append` overloads, and the pure transducer `Filter` they are proved against.
- **`HnbtSerializer`** (`serializer.dfy`, module `Serialization`): the recursive tag-tree writer.
  - It is a class whose methods append step by step to a character sink.
  - It is proved against the pure recursive `Render`.
  - The chain of cached indented serializers, each wrapping an `IndentAddingAppendable`, is one object. Its field `indents` holds the newline bit of every level's appendable.
  - `Pass` states what a write at a given nesting level sends to the root target.
- **`NbtToHnbt`** (`nbt_to_hnbt.dfy`): both `parseNbtIntoHnbt` overloads. A document is the root compound under the name `root`, then one newline.
- **`CaptureErrorsListenener`** (`error_capture.dfy`, module `ErrorCapture`): the ANTLR error listener that collects recognition exceptions, after attaching an info message to each.

Shared building blocks:
- `lang.dfy` (module `Lang`):
  - Java `char` as an `int` in `0..0xFFFF`, and strings as sequences of them;
  - the fixed-width integer types;
  - the exceptions as a `Result` datatype;
  - 32-bit wrap-around and truncating division;
  - `CharSink`, a class standing for `CharArrayWriter` or any `Appendable`.
- `decimal.dfy` (module `Decimal`): the decimal `toString` of integers, with its round trip.
- `tags.dfy` (module `Tags`): the tag tree as a datatype. A compound is a sequence of (key, tag) pairs, in the order its map iterates.

The name check in `writePreTag` runs the generated `HNBTLexer` on the name. The model replaces it with a parameter `isName: JString -> bool`, fixed when a serializer is constructed.

All source paths below are under `src/main/java/me/kenzierocks/hnbt/` or `src/test/java/me/kenzierocks/hnbt/`.

## Model

| member | source | states |
|---|---|---|
| Lang.Wrap | src/main/java/me/kenzierocks/hnbt/util/ByteList.java:69 | The Java `int` a sum wraps to: unchanged in range, shifted by 2^32 one step out of range, always within `int` bounds. |
| Lang.Quot | src/main/java/me/kenzierocks/hnbt/util/ByteList.java:58 | Java's `/`: the quotient truncated toward zero, so the remainder has the sign of the dividend. |
| Lang.Rem | src/main/java/me/kenzierocks/hnbt/util/ByteList.java:57 | Java's `%`: the remainder that goes with the truncating quotient. It lies in `[0, b)` for a non-negative dividend, where it equals the mathematical remainder, and in `(-b, 0]` for a negative one. |
| Decimal.Digits | src/main/java/me/kenzierocks/hnbt/HnbtSerializer.java:76 | The digits of a natural number: never empty, and led by a decimal digit. |
| Decimal.DecimalString | src/main/java/me/kenzierocks/hnbt/HnbtSerializer.java:76 | `toString` of an integral value is never empty and begins with `-` exactly when the value is negative. Its round trip is `DecimalRoundTrip`. |
| Decimal.DecimalRoundTrip | src/main/java/me/kenzierocks/hnbt/HnbtSerializer.java:164-197 | `toString` of an integer is a well-formed literal that reads back as the same value, has a minus sign exactly for negatives and no leading zero, so distinct values render differently. |
| Decimal.DigitsRoundTrip | src/main/java/me/kenzierocks/hnbt/HnbtSerializer.java:164-197 | The digits of a natural number are non-empty decimal digits without a leading zero and denote the number. |
| Decimal.DecimalCharacters | src/main/java/me/kenzierocks/hnbt/HnbtSerializer.java:97 | A rendered number holds only digits and a leading minus, so it cannot contain the separators of a block. |
| StringUtil.UnescapeEscapeSequence | src/main/java/me/kenzierocks/hnbt/util/StringUtil.java:71-96 | Accepted exactly when the input is two characters, `\` and one of `b t n f r " ' \`; anything else throws IllegalArgumentException. |
| StringUtil.UnescapeUnicodeEscape | src/main/java/me/kenzierocks/hnbt/util/StringUtil.java:98-115 | Accepted exactly for `\`, a possibly empty run of `u`, and four hex digits of either case. The value is those digits read base 16. An empty input, or a backslash with fewer than four characters after it, throws StringIndexOutOfBounds; other rejections throw IllegalArgumentException. |
| StringUtil.Hex4 | src/main/java/me/kenzierocks/hnbt/util/StringUtil.java:178 | `%04x`: exactly four hex digits, none of them `u`, so the `u` run of the escape ends before them. Their value is stated by `Hex4Parses`. |
| StringUtil.HexFourBound | src/main/java/me/kenzierocks/hnbt/util/StringUtil.java:114 | Four hex digits always fit a `char`, so the cast loses nothing. |
| StringUtil.UnescapeOctalEscape | src/main/java/me/kenzierocks/hnbt/util/StringUtil.java:117-138 | Accepted exactly for `\` and one to three octal digits, where three digits need a first digit of at most `3`. The value is the digits read base 8 and is at most 255. The bare `\` throws StringIndexOutOfBounds, because the disabled `assert` lets `charAt(0)` run on the empty digit string. |
| StringUtil.OctalBound | src/main/java/me/kenzierocks/hnbt/util/StringUtil.java:127-137 | Up to three octal digits with the first-digit limit read as at most 255, and fewer than three as less than 64. |
| StringUtil.IsISOControl | src/main/java/me/kenzierocks/hnbt/util/StringUtil.java:177 | `Character.isISOControl`: U+0000 to U+001F and U+007F to U+009F. Its role is stated by `CharacterLiteral`'s contract: six-character output exactly for the ISO controls without a named escape. |
| StringUtil.UnicodeEscape | src/main/java/me/kenzierocks/hnbt/util/StringUtil.java:178 | `\u` and `%04x` of the character. Its decoding is stated by `UnicodeEscapeRoundTrip`. |
| StringUtil.CharacterLiteral | src/main/java/me/kenzierocks/hnbt/util/StringUtil.java:156-181 | Emits one character for `"` and for characters that are neither controls nor named, two (starting with `\`) for the seven named escapes (backspace, tab, newline, form feed, carriage return, `'` and `\`), and six for the other ISO controls. |
| StringUtil.LowerHexDigit | src/main/java/me/kenzierocks/hnbt/util/StringUtil.java:178 | A `%x` digit is a lowercase hex digit of the right value and is never `u`. |
| StringUtil.EscapeChar | src/main/java/me/kenzierocks/hnbt/util/StringUtil.java:191-203 | One character of the loop gives one, two or six characters. It is never a bare `"`, and a one-character piece is the character itself and neither `"` nor `\`. |
| StringUtil.Literal | src/main/java/me/kenzierocks/hnbt/util/StringUtil.java:187-207 | The double-quoted literal. `EscapedString` is proved to build it; `LiteralLength` bounds its length; `EscapeRoundTrip` reads its body back. |
| StringUtil.EscapedString | src/main/java/me/kenzierocks/hnbt/util/StringUtil.java:187-207 | The loop builds the literal: `"`, then each character's piece in order, then `"`. |
| StringUtil.EscapedBodyAppend | src/main/java/me/kenzierocks/hnbt/util/StringUtil.java:190-204 | The body of a concatenation is the concatenation of the bodies, since each character is escaped on its own. |
| StringUtil.LiteralLength | src/main/java/me/kenzierocks/hnbt/util/StringUtil.java:188-205 | A literal of `n` characters is between `n + 2` and `6n + 2` characters long. |
| StringUtil.UnicodeEscapeRoundTrip | src/main/java/me/kenzierocks/hnbt/util/StringUtil.java:98-115 | `\u` with `%04x` of a character decodes back to that character. The encoder side is `characterLiteralWithoutSingleQuotes`, lines 177-178. |
| StringUtil.Hex4Parses | src/main/java/me/kenzierocks/hnbt/util/StringUtil.java:178 | The four digits `%04x` prints read back base 16 as the character. |
| StringUtil.CharacterLiteralDecodes | src/main/java/me/kenzierocks/hnbt/util/StringUtil.java:156-181 | Each piece `characterLiteralWithoutSingleQuotes` emits is the raw character, a two-character escape that decodes to it, or a Unicode escape that decodes to it. The decoders are at lines 71-115 of the same file. |
| StringUtil.EscapeCharDecodes | src/main/java/me/kenzierocks/hnbt/util/StringUtil.java:190-204 | Escape symmetry for every piece the encoder loop emits, the loop's own `'` and `\"` cases included. The decoders are at lines 71-115 of the same file. |
| StringUtil.EscapeSequenceIsEncoded | src/main/java/me/kenzierocks/hnbt/util/StringUtil.java:71-96 | Every two-character escape the decoder accepts is what the encoder emits for the character it decodes to. The encoders are at lines 156-203 of the same file. |
| StringUtil.OctalEscapeRoundTrip | src/main/java/me/kenzierocks/hnbt/util/StringUtil.java:117-138 | The three-digit octal escape of every value below 256 decodes back to it, and so do the two- and one-digit forms where they exist. |
| StringUtil.OctalThreeDigits | src/main/java/me/kenzierocks/hnbt/util/StringUtil.java:130-137 | The three-digit form of a value below 256 decodes to the value. |
| StringUtil.OctalTwoDigits | src/main/java/me/kenzierocks/hnbt/util/StringUtil.java:127-129 | The two-digit form of a value below 64 decodes to the value. |
| StringUtil.OctalOneDigit | src/main/java/me/kenzierocks/hnbt/util/StringUtil.java:127-129 | The one-digit form of a value below 8 decodes to the value. |
| StringUtil.ReadPiece | src/main/java/me/kenzierocks/hnbt/util/StringUtil.java:190-204 | Reading an encoded piece followed by anything yields the character and goes on exactly after the piece. The decoders are at lines 71-115 of the same file. |
| StringUtil.EscapeRoundTrip | src/main/java/me/kenzierocks/hnbt/util/StringUtil.java:187-207 | The body of every encoded literal reads back, piece by piece through the three decoders, as the original string. The decoders are at lines 71-138 of the same file. |
| StringUtil.OctalExample | src/test/java/me/kenzierocks/hnbt/StringParseTest.java:36-39 | `\101\102\103` reads as `ABC`. |
| ByteLists.HugeCapacity | src/main/java/me/kenzierocks/hnbt/util/ByteList.java:36-41 | A negative minimum throws OutOfMemoryError. Otherwise the result is at least `MAX_ARRAY_SIZE`, at least the minimum, and at most `Integer.MAX_VALUE`. |
| ByteLists.GrowCapacity | src/main/java/me/kenzierocks/hnbt/util/ByteList.java:24-34 | The new capacity `grow` computes, with the overflow-conscious comparisons done in 32-bit arithmetic, is a valid array length. |
| ByteLists.IdealCapacity | src/main/java/me/kenzierocks/hnbt/util/ByteList.java:24-34 | The intended capacity is at least the minimum and at most `Integer.MAX_VALUE`. It is at least one and a half times the old capacity unless it reached `MAX_ARRAY_SIZE`. |
| ByteLists.GrowCapacityIsIdeal | src/main/java/me/kenzierocks/hnbt/util/ByteList.java:24-34 | For any minimum above the old capacity, the overflow-conscious code computes exactly `max(old + old/2, min)` capped by `hugeCapacity`: the 32-bit wrap never changes the answer. |
| ByteLists.GrowCapacityOverflowed | src/main/java/me/kenzierocks/hnbt/util/ByteList.java:24-41 | A minimum that overflowed to negative throws OutOfMemoryError instead of shrinking the array. |
| ByteLists.GrowCapacityMinValue | src/main/java/me/kenzierocks/hnbt/util/ByteList.java:24-41 | The minimum `Integer.MIN_VALUE` throws OutOfMemoryError from any capacity. |
| ByteLists.BytesNeeded | src/main/java/me/kenzierocks/hnbt/util/ByteList.java:56-61 | The requirement `ensureCapacity` computes is the count divided by 8, plus 8 when it is not a multiple of 8, with Java's truncating `/` and `%`. |
| ByteLists.EnsuredLength | src/main/java/me/kenzierocks/hnbt/util/ByteList.java:55-66 | The array length `ensureCapacity` leaves, as written. Its properties are stated by `EnsuredLengthNeverShrinks`, `EarlyAdds` and the contract of `ByteList.EnsureCapacity`. |
| ByteLists.EnsuredLengthCorrected | src/main/java/me/kenzierocks/hnbt/util/ByteList.java:55-66 | The same with the requirement taken as the count itself. Its properties are stated by `EnsuredLengthCorrectedSuffices` and `CorrectedRoom`. |
| ByteLists.EnsuredLengthNeverShrinks | src/main/java/me/kenzierocks/hnbt/util/ByteList.java:55-66 | `ensureCapacity` only ever keeps or grows the array, and it fails only with OutOfMemoryError. |
| ByteLists.EnsuredLengthCorrectedSuffices | src/main/java/me/kenzierocks/hnbt/util/ByteList.java:55-66 | With the requirement taken as the count itself, `ensureCapacity` of any non-negative count succeeds and leaves room for it. An overflowed count throws OutOfMemoryError unless the array is empty. |
| ByteLists.CorrectedRoom | src/main/java/me/kenzierocks/hnbt/util/ByteList.java:68-72 | With the corrected requirement, the capacity `add` asks for is granted exactly when `size + 1` does not overflow, and it then exceeds `size`. |
| ByteLists.Resized | src/main/java/me/kenzierocks/hnbt/util/ByteList.java:33 | `Arrays.copyOf` keeps the old bytes as a prefix and pads with zeros. |
| ByteLists.CopyOf | src/main/java/me/kenzierocks/hnbt/util/ByteList.java:33 | A negative length throws NegativeArraySizeException. Otherwise the result is a fresh array with the content of `Resized`. `toArray` at line 75 makes the same call. |
| ByteLists.ByteList.Valid | src/main/java/me/kenzierocks/hnbt/util/ByteList.java:43-44 | The invariant `0 <= size <= data.length <= Integer.MAX_VALUE`, which every method requires and keeps. |
| ByteLists.ByteList.Contents | src/main/java/me/kenzierocks/hnbt/util/ByteList.java:43-44 | The stored bytes are the first `size` elements of the backing array. |
| ByteLists.ByteList.constructor | src/main/java/me/kenzierocks/hnbt/util/ByteList.java:46-48 | A new list is empty, over an empty array. |
| ByteLists.ByteList.FromArray | src/main/java/me/kenzierocks/hnbt/util/ByteList.java:50-52 | The array constructor copies `init`, yet the list holds no bytes, because `size` stays 0. |
| ByteLists.ByteList.Grow | src/main/java/me/kenzierocks/hnbt/util/ByteList.java:24-34 | On success the array is a fresh one of the computed capacity, with the old bytes as a prefix. On failure nothing changes. |
| ByteLists.ByteList.EnsureCapacity | src/main/java/me/kenzierocks/hnbt/util/ByteList.java:55-66 | The array ends with the length `EnsuredLength` gives (growing only when the requirement exceeds the length), and the stored bytes are unchanged. |
| ByteLists.ByteList.EnsureCapacityCorrected | src/main/java/me/kenzierocks/hnbt/util/ByteList.java:55-66 | The same for the corrected requirement. |
| ByteLists.ByteList.Add | src/main/java/me/kenzierocks/hnbt/util/ByteList.java:68-72 | As written: the byte is appended exactly when the array `ensureCapacity` leaves is longer than `size`. Otherwise the store throws ArrayIndexOutOfBounds and the contents are unchanged. |
| ByteLists.ByteList.Store | src/main/java/me/kenzierocks/hnbt/util/ByteList.java:70-71 | The array store and the increment: appends the byte exactly when `size` is inside the array, and otherwise throws before `size` changes. |
| ByteLists.ByteList.AddCorrected | src/main/java/me/kenzierocks/hnbt/util/ByteList.java:68-72 | Corrected: `add` appends the byte and leaves the earlier bytes unchanged whenever `size + 1` does not overflow. |
| ByteLists.ByteList.ToArray | src/main/java/me/kenzierocks/hnbt/util/ByteList.java:74-76 | Returns a fresh array of exactly the stored bytes. |
| ByteLists.EarlyAdds | src/main/java/me/kenzierocks/hnbt/util/ByteList.java:55-72 | As written, the array's length after `n` adds is 0 for `n = 0`, 8 for `n` up to 8, and 12 from 9 to 13 adds. |
| ByteLists.ThirteenthAddFails | src/test/java/me/kenzierocks/hnbt/ByteListTest.java:27-41 | As written, the thirteenth add on a new list throws ArrayIndexOutOfBounds. |
| ByteLists.HundredAdds | src/test/java/me/kenzierocks/hnbt/ByteListTest.java:27-41 | With the corrected `ensureCapacity`, a hundred adds of 123 give back 100 bytes, all 123. |
| Indenting.Filter | src/main/java/me/kenzierocks/hnbt/util/IndentAddingAppendable.java:31-39 | What the appendable forwards for a sequence, from a given newline bit. Its properties are stated by `FilterForwardsLast`, `FilterStep`, `FilterConcat` and `UnindentFilter`. |
| Indenting.FilterForwardsLast | src/main/java/me/kenzierocks/hnbt/util/IndentAddingAppendable.java:31-39 | Nothing is dropped: the forwarded text is never shorter than the input and ends with the input's last character. |
| Indenting.AfterConcat | src/main/java/me/kenzierocks/hnbt/util/IndentAddingAppendable.java:37 | The newline bit after two appends is the bit after the second, started from the bit after the first. |
| Indenting.FilterConcat | src/main/java/me/kenzierocks/hnbt/util/IndentAddingAppendable.java:23-39 | Appending `a` and then `b` forwards exactly what appending `a + b` at once does. |
| Indenting.FilterStep | src/main/java/me/kenzierocks/hnbt/util/IndentAddingAppendable.java:33-36 | A character gets exactly one copy of the indent before it when it follows a newline and is not one, and none otherwise, so blank lines stay empty. |
| Indenting.FilterOne | src/main/java/me/kenzierocks/hnbt/util/IndentAddingAppendable.java:33-36 | `append(c)` forwards the indent only if the state is set and `c` is not a newline, then `c`. |
| Indenting.FirstCharNotIndented | src/main/java/me/kenzierocks/hnbt/util/IndentAddingAppendable.java:33-37 | A fresh appendable forwards its first character without an indent. |
| Indenting.LeadingNewlineForgetsState | src/main/java/me/kenzierocks/hnbt/util/IndentAddingAppendable.java:33-37 | Text that begins with a newline is forwarded alike from either state, so a cached appendable's stale bit is harmless. |
| Indenting.UnindentFilter | src/main/java/me/kenzierocks/hnbt/util/IndentAddingAppendable.java:36 | Every character is forwarded unchanged and in order: removing the inserted indents gives back the input. |
| Indenting.IndentAddingAppendable.constructor | src/main/java/me/kenzierocks/hnbt/util/IndentAddingAppendable.java:7-14 | A new appendable keeps its indent and delegate and has not seen a newline. |
| Indenting.IndentAddingAppendable.AppendChar | src/main/java/me/kenzierocks/hnbt/util/IndentAddingAppendable.java:31-39 | The delegate receives `Filter` of the one character, and the new bit is whether it was a newline. |
| Indenting.IndentAddingAppendable.AppendRange | src/main/java/me/kenzierocks/hnbt/util/IndentAddingAppendable.java:22-29 | The delegate receives `Filter` of the characters the loop reads before it ends or throws (`Written`), and the bit is the one after them. It throws StringIndexOutOfBounds exactly when the range is non-empty and leaves the sequence. |
| Indenting.IndentAddingAppendable.AppendNext | src/main/java/me/kenzierocks/hnbt/util/IndentAddingAppendable.java:25-27 | One loop iteration: the delegate's text and the bit move on by one character of `Filter`. |
| Indenting.IndentAddingAppendable.Append | src/main/java/me/kenzierocks/hnbt/util/IndentAddingAppendable.java:16-20 | `append(csq)` forwards `Filter` of the whole sequence. |
| Indenting.Written | src/main/java/me/kenzierocks/hnbt/util/IndentAddingAppendable.java:25-26 | The characters the range loop sends before it returns or throws: the whole range when it lies inside the sequence, nothing when the range is empty or its start lies outside. |
| Serialization.IndentHasNoNewline | src/main/java/me/kenzierocks/hnbt/HnbtSerializer.java:38 | The indent string, four spaces, holds no newline. |
| Serialization.Keyword | src/main/java/me/kenzierocks/hnbt/HnbtSerializer.java:159-215 | The keyword each per-type writer passes on; only the end tag, which no writer handles, has none. |
| Serialization.KeywordIdentifiesKind | src/main/java/me/kenzierocks/hnbt/HnbtSerializer.java:159-215 | Two tags get the same keyword exactly when they are of the same tag class. |
| Serialization.ScalarText | src/main/java/me/kenzierocks/hnbt/HnbtSerializer.java:164-215 | A byte, short, int or long value's text is a literal that reads back as the value. A string's text is `"`, a body that reads back as the string, and `"`. |
| Serialization.Header | src/main/java/me/kenzierocks/hnbt/HnbtSerializer.java:56-69 | The header is the keyword, then a space and the name only when there is one, then ` = `. A name that `isName` refuses throws IllegalArgumentException. |
| Serialization.Render | src/main/java/me/kenzierocks/hnbt/HnbtSerializer.java:71-215 | The only exception writing a tag can throw is IllegalArgumentException. |
| Serialization.CompoundPieces | src/main/java/me/kenzierocks/hnbt/HnbtSerializer.java:146-155 | Texts for exactly the first `i` entries, one each; a failure is IllegalArgumentException. |
| Serialization.EntryPiece | src/main/java/me/kenzierocks/hnbt/HnbtSerializer.java:150 | An entry, written under its key, fails only with IllegalArgumentException. |
| Serialization.ItemPiece | src/main/java/me/kenzierocks/hnbt/HnbtSerializer.java:94-98 | A list element is a full tag without a name and may fail; an array element is its bare number and cannot fail. |
| Serialization.ListLikePieces | src/main/java/me/kenzierocks/hnbt/HnbtSerializer.java:90-103 | Texts for exactly the first `i` elements, one each; a failure is IllegalArgumentException. |
| Serialization.RenderParts | src/main/java/me/kenzierocks/hnbt/HnbtSerializer.java:107-157 | Writing fails exactly on an end tag, a refused name, or a failing child. |
| Serialization.RenderSucceeds | src/main/java/me/kenzierocks/hnbt/HnbtSerializer.java:56-157 | Writing succeeds exactly on trees without end tags whose every key and given name `isName` accepts; list elements are written without a name, so only the given name and the keys of compounds are checked. |
| Serialization.CompoundPiecesSucceed | src/main/java/me/kenzierocks/hnbt/HnbtSerializer.java:146-155 | The first `i` entries are written exactly when each has an accepted key and a writable tree. |
| Serialization.ListLikePiecesSucceed | src/main/java/me/kenzierocks/hnbt/HnbtSerializer.java:90-103 | The first `i` elements are written exactly when, for a list, each is a writable tree; arrays never fail. |
| Serialization.CompoundPiecesPrefix | src/main/java/me/kenzierocks/hnbt/HnbtSerializer.java:146-155 | The texts of the first `i` entries do not depend on the later entries, and exist whenever the texts of more entries do. |
| Serialization.ListLikePiecesPrefix | src/main/java/me/kenzierocks/hnbt/HnbtSerializer.java:90-103 | The same for the elements of a list-like tag. |
| Serialization.CompoundPiecesStep | src/main/java/me/kenzierocks/hnbt/HnbtSerializer.java:146-155 | Entry `i`'s text comes right after the first `i` texts: the loop follows the map's iteration order. |
| Serialization.ListLikePiecesStep | src/main/java/me/kenzierocks/hnbt/HnbtSerializer.java:90-103 | Element `i`'s text comes right after the first `i` texts. |
| Serialization.RenderCompound | src/main/java/me/kenzierocks/hnbt/HnbtSerializer.java:137-157 | A compound is its header, `{`, the block of its entries written one level deeper, and `}`. It fails exactly when the header or an entry does. |
| Serialization.RenderListLike | src/main/java/me/kenzierocks/hnbt/HnbtSerializer.java:79-105 | A list, byte array or int array is its header, `[`, the block of its elements written one level deeper, and `]`. |
| Serialization.LinesOfSnoc | src/main/java/me/kenzierocks/hnbt/HnbtSerializer.java:146-155 | One more child adds exactly its line, with a comma unless it is the last of the container. |
| Serialization.JoinSnoc | src/main/java/me/kenzierocks/hnbt/HnbtSerializer.java:99-102 | Joining one more child adds the separator and the child. |
| Serialization.LinesOfPrefix | src/main/java/me/kenzierocks/hnbt/HnbtSerializer.java:146-155 | Lines of some but not all children are the children joined by `,\n`, then `,\n`. |
| Serialization.BlockLayout | src/main/java/me/kenzierocks/hnbt/HnbtSerializer.java:137-157 | A non-empty body is `\n`, the children joined by `,\n`, and a final `\n`: no comma after the last child. The same layout is used for lists at lines 87-104. |
| Serialization.EmptyContainers | src/main/java/me/kenzierocks/hnbt/HnbtSerializer.java:79-157 | An empty compound is its header and `{}`; an empty list, byte array or int array its header and `[]`. |
| Serialization.NestedLines | src/main/java/me/kenzierocks/hnbt/HnbtSerializer.java:48-54 | One level of indentation puts exactly one indent before each line of children that hold no newline. |
| Serialization.NestedUnindent | src/main/java/me/kenzierocks/hnbt/HnbtSerializer.java:48-54 | One nesting level adds an indent before each line of a block and nothing else, whatever the children contain: removing one indent per line gives back the block. |
| Serialization.NestedOneLineBlock | src/main/java/me/kenzierocks/hnbt/HnbtSerializer.java:142-156 | A block of children without newlines appears as `\n` and each child on its own line, indented once. |
| Serialization.Pass | src/main/java/me/kenzierocks/hnbt/HnbtSerializer.java:48-54 | What a write through the chain of indenting appendables leaves: the text the root receives and one new bit per level. |
| Serialization.PassConcat | src/main/java/me/kenzierocks/hnbt/HnbtSerializer.java:48-54 | Two writes through the chain pass on what one write of both does. |
| Serialization.PassDeeper | src/main/java/me/kenzierocks/hnbt/HnbtSerializer.java:48-54 | Text that begins with a newline, written one level deeper, reaches the root as the enclosing level's write of its filtered form. |
| Serialization.PassNestedBlock | src/main/java/me/kenzierocks/hnbt/HnbtSerializer.java:142-145 | A block that the next level writes as an optional opening newline and then its lines reaches the root as its nested form would from this level. |
| Serialization.HnbtSerializer.constructor | src/main/java/me/kenzierocks/hnbt/HnbtSerializer.java:44-46 | A new serializer writes to `target` and has no cached indented serializer. |
| Serialization.HnbtSerializer.Put | src/main/java/me/kenzierocks/hnbt/HnbtSerializer.java:48-54 | `target.append(s)` at a nesting level sends `Pass` of `s` to the root, updates the bits of the levels it passes through, and leaves the deeper levels' bits alone. |
| Serialization.HnbtSerializer.PutChar | src/main/java/me/kenzierocks/hnbt/util/IndentAddingAppendable.java:31-39 | One character through the appendable of a level: the indent goes to the level above when due, then the character. |
| Serialization.HnbtSerializer.PutIndentIfDue | src/main/java/me/kenzierocks/hnbt/util/IndentAddingAppendable.java:33-35 | The indent goes through the level above exactly when it is due, and nothing otherwise. |
| Serialization.HnbtSerializer.GetIndented | src/main/java/me/kenzierocks/hnbt/HnbtSerializer.java:48-54 | The indented serializer is created once, with a fresh appendable whose bit is clear, and reused afterwards. |
| Serialization.HnbtSerializer.OpenBlock | src/main/java/me/kenzierocks/hnbt/HnbtSerializer.java:142-145 | Getting the indented serializer, then the newline through it only when there are children. |
| Serialization.HnbtSerializer.WritePreTag | src/main/java/me/kenzierocks/hnbt/HnbtSerializer.java:56-69 | Writes `Header` at the level, or throws IllegalArgumentException exactly when `Header` does. |
| Serialization.HnbtSerializer.WriteSimpleTag | src/main/java/me/kenzierocks/hnbt/HnbtSerializer.java:71-77 | Writes the header and then the value's text. |
| Serialization.HnbtSerializer.WriteOpening | src/main/java/me/kenzierocks/hnbt/HnbtSerializer.java:140-141 | Writes the header and then the opening bracket. |
| Serialization.HnbtSerializer.WriteAnyTag | src/main/java/me/kenzierocks/hnbt/HnbtSerializer.java:107-135 | Dispatches on the tag kind and writes exactly `Render` of the tag to the root. It throws IllegalArgumentException for an end tag, the one tag class it does not know, and exactly when `Render` fails. |
| Serialization.HnbtSerializer.WriteCompoundTag | src/main/java/me/kenzierocks/hnbt/HnbtSerializer.java:137-157 | Writes exactly `Render` of the compound, or fails exactly when it does. |
| Serialization.HnbtSerializer.WriteEntryBlock | src/main/java/me/kenzierocks/hnbt/HnbtSerializer.java:142-155 | Everything between the braces reaches the root as the block of entries, filtered once more. |
| Serialization.HnbtSerializer.WriteEntries | src/main/java/me/kenzierocks/hnbt/HnbtSerializer.java:146-155 | The entry loop writes one line per entry, in order, with a comma on all but the last. |
| Serialization.HnbtSerializer.WriteEntryStep | src/main/java/me/kenzierocks/hnbt/HnbtSerializer.java:147-155 | One iteration: on success the written lines grow by the next entry's line; on failure the whole compound fails. |
| Serialization.HnbtSerializer.WriteEntryLine | src/main/java/me/kenzierocks/hnbt/HnbtSerializer.java:150-154 | An entry under its key, then `,` unless it is the last, then `\n`. |
| Serialization.HnbtSerializer.WriteListLikeTag | src/main/java/me/kenzierocks/hnbt/HnbtSerializer.java:79-105 | Writes exactly `Render` of a list, byte array or int array, or fails exactly when it does. |
| Serialization.HnbtSerializer.WriteItemBlock | src/main/java/me/kenzierocks/hnbt/HnbtSerializer.java:85-103 | Everything between the brackets reaches the root as the block of elements, filtered once more. |
| Serialization.HnbtSerializer.WriteItems | src/main/java/me/kenzierocks/hnbt/HnbtSerializer.java:90-103 | The element loop writes one line per element, in order, with a comma on all but the last. |
| Serialization.HnbtSerializer.WriteItemStep | src/main/java/me/kenzierocks/hnbt/HnbtSerializer.java:90-103 | One iteration: on success the written lines grow by the next element's line; on failure the whole tag fails. |
| Serialization.HnbtSerializer.WriteItemLine | src/main/java/me/kenzierocks/hnbt/HnbtSerializer.java:91-102 | An element, then `,` unless it is the last, then `\n`. |
| Serialization.HnbtSerializer.WriteItem | src/main/java/me/kenzierocks/hnbt/HnbtSerializer.java:94-98 | A list element goes through `writeAnyTag` with no name; an array element is appended as its decimal `toString`. |
| Serialization.HnbtSerializer.WriteLineEnd | src/main/java/me/kenzierocks/hnbt/HnbtSerializer.java:99-102 | `,` unless the child is the last, then `\n`. |
| Lang.CharSink.constructor | src/main/java/me/kenzierocks/hnbt/NbtToHnbt.java:11 | A new `CharArrayWriter` holds no text. |
| Lang.CharSink.Append | src/main/java/me/kenzierocks/hnbt/NbtToHnbt.java:20-23 | `Appendable.append` adds exactly its argument at the end. |
| NbtToHnbt.Document | src/main/java/me/kenzierocks/hnbt/NbtToHnbt.java:20-24 | The document opens with `compound root = {` and ends with `}` and one newline. It fails, with IllegalArgumentException, exactly when `root` or something in the tree is refused. |
| NbtToHnbt.WriteDocument | src/main/java/me/kenzierocks/hnbt/NbtToHnbt.java:20-24 | The Appendable overload appends exactly the document to `target`, or fails exactly when `Document` does. |
| NbtToHnbt.ParseNbtIntoHnbt | src/main/java/me/kenzierocks/hnbt/NbtToHnbt.java:10-18 | The String overload returns exactly what the Appendable overload writes into a fresh buffer. |
| NbtToHnbt.EmptyRootDocument | src/main/java/me/kenzierocks/hnbt/NbtToHnbt.java:22-23 | An empty root compound gives `compound root = {}` and a newline. |
| ErrorCapture.RecognitionException.AddSuppressed | src/main/java/me/kenzierocks/hnbt/util/CaptureErrorsListenener.java:30-31 | The message joins the exception's suppressed list at the end. |
| ErrorCapture.InfoMessage | src/main/java/me/kenzierocks/hnbt/util/CaptureErrorsListenener.java:24-31 | The message starts with the fixed prefix and then the location. It fails, with ArrayIndexOutOfBounds, exactly for a lexer whose mode index is outside its mode names. |
| ErrorCapture.InfoMessageParts | src/main/java/me/kenzierocks/hnbt/util/CaptureErrorsListenener.java:24-29 | After the prefix comes the location. A parser's message ends there; a lexer's continues with `, mode=` and its current mode's name. |
| ErrorCapture.LocationFields | src/main/java/me/kenzierocks/hnbt/util/CaptureErrorsListenener.java:24-25 | The line and the position appear as their decimal renderings between the fixed labels, so each reads back as its value. |
| ErrorCapture.CaptureErrorsListenener.constructor | src/main/java/me/kenzierocks/hnbt/util/CaptureErrorsListenener.java:15 | A new listener holds no errors. |
| ErrorCapture.CaptureErrorsListenener.SyntaxError | src/main/java/me/kenzierocks/hnbt/util/CaptureErrorsListenener.java:17-33 | A report without an exception changes nothing. Otherwise the exception gets the info message as a suppressed exception and is appended at the end, earlier entries unchanged. If the mode lookup throws, nothing changes. |
| ErrorCapture.CaptureErrorsListenener.GetErrors | src/main/java/me/kenzierocks/hnbt/util/CaptureErrorsListenener.java:35-37 | Returns the captured exceptions, in report order. |
| ErrorCapture.CaptureErrorsListenener.SnapshotThenReport | src/main/java/me/kenzierocks/hnbt/util/CaptureErrorsListenener.java:32-37 | A list taken before a report keeps its contents after it, while the listener goes on to hold the new exception. |
| ErrorCapture.CaptureErrorsListenener.ClearErrors | src/main/java/me/kenzierocks/hnbt/util/CaptureErrorsListenener.java:39-41 | The listener holds nothing afterwards. |

## Left out

- `StringUtil.unescapeString` and `HnbtToNbt`: they drive ANTLR-generated lexers and parsers whose grammar is not part of this model. A reference reader `ReadBody`, built from the three decoders, stands in to state escape symmetry. The boundaries between its pieces (`EscapeLength`) are assumed, not taken from the lexer, so `EscapeRoundTrip` holds for this reader only.
- The generated `HNBTLexer` in `writePreTag`: the parameter `isName` stands for "lexing the name yields a first token of type `TagName`".
- Float and double text: `FloatTag` and `DoubleTag` carry their `toString` as opaque text, since floating point is not modelled.
- The jnbt tag classes: they are the `Tag` datatype. A list's declared element type is carried but never written, as in the source. A tag's own stored name is left out, because the writer names each tag by its key.
- `IOException`, null arguments and `checkNotNull`: the sink cannot fail and values are never null. The `IllegalStateException` wrapper in the String overload of `parseNbtIntoHnbt` is therefore unreachable.
- Partial output: when writing throws, the model does not say what already went to the target. The Java code writes the keyword and part of the tree before the check that fails.
- The per-type writers (`writeByteTag` … `writeStringTag`, `writeListTag`, `writeByteArrayTag`, `writeIntArrayTag`): they are folded into `WriteAnyTag` and `WriteListLikeTag`, which pass the same keyword and value text.
- The chain of `HnbtSerializer` objects and their `IndentAddingAppendable`s: it is one object holding one newline bit per level. Aliasing between the levels' targets is therefore not modelled, and the levels nest only as the serializer creates them.
- ByteLists.CopyOf and ByteLists.ByteList.Grow: allocation is assumed to succeed. Neither an array longer than the VM allows (possible near `Integer.MAX_VALUE`, as the comment at ByteList.java:10-14 warns) nor heap exhaustion throws OutOfMemoryError in the model. The same holds for `ByteList.FromArray` and `toArray`.
- Bytes are `Int8` (the integers -128 to 127), not a bit-vector type.
- Lang.Wrap: states only the cases one step outside the `int` range. It does not state congruence modulo 2^32 for all inputs, which no caller needs.
- `ProxyPrintingParseListener` and `HNBTParsingException`: debugging and a trivial exception type, outside this core.
- `CaptureErrorsListenener`: the offending symbol is ignored, as in the source. `ImmutableList.copyOf` is a `seq` value, which later changes to the listener cannot alter.

## Findings

| source | as written | input that shows it | evidently intended | confidence | as-written member | corrected member |
|---|---|---|---|---|---|---|
| src/main/java/me/kenzierocks/hnbt/util/ByteList.java:55-66 | `ensureCapacity` converts the requested element count to "bytes needed": count / 8, plus 8 when the count is not a multiple of 8. It grows only when that is larger than the array. But each element is one byte, so the array stays too small. | A new `ByteList` and thirteen `add` calls. The twelfth leaves an array of length 12. The thirteenth asks for 13, converted to 9, so `grow` is skipped, and `data[12] = b` throws ArrayIndexOutOfBoundsException. The repository's test at src/test/java/me/kenzierocks/hnbt/ByteListTest.java:27-41 adds 100 bytes and expects all of them back. | Ask for the count itself: grow when `minCapacity - data.length > 0`, so every `add` has room. | not executed | ByteLists.ByteList.Add, ByteLists.ThirteenthAddFails | ByteLists.ByteList.AddCorrected, ByteLists.HundredAdds |
