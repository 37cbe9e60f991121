# Mainframe data migration: a verified model of the type and layout core

The repository migrates mainframe data (VSAM files described by COBOL copybooks, DB2 tables
described by DDL or DCLGEN members) to Spark. Its logical core, modelled here, is the part
that decides what the data looks like:

- `Encoding` — decoding packed decimal (COMP-3), zoned decimal (DISPLAY) and big-endian
  binary fields, the packed-decimal encoder, and the CCSID/codec table with its converter.
- `VsamTypes` — parsing a COBOL `PIC` clause into digit counts, sign, usage and storage
  length, and mapping it to a Spark type.
- `Db2Types` — parsing a DB2 column type with its ordered first-match rules and mapping it
  to a Spark type and a codec.
- `CopybookParser` — cleaning copybook text (columns 8-72, comments, continuations),
  recognising field lines, and laying the fields out with offsets, parents, children lists,
  REDEFINES overlays and OCCURS.
- `DdlParser` — cleaning `CREATE TABLE` text, splitting the column list at depth-0 commas,
  parsing columns, and flagging primary and foreign keys.
- `DclParser` — reading a DCLGEN member: the `EXEC SQL DECLARE` table, the COBOL host
  variables, their matching to SQL columns, and the column count.
- `TypeMapper` — building Spark schemas from VSAM definitions and DB2 columns, and the
  compatibility relation between Spark types.
- `SchemaValidator` — comparing a source and a target schema with the type-promotion
  matrix, validating a schema against required fields and expected types, and inferring a
  target schema.
- `DataValidator` — the validation result that accumulates errors and warnings, and the
  record-count check.

Supporting modules: `Wrappers` (`Option`, `Result`), `Strings` (character classes, strip,
upper-case, split and the small recognisers the regular expressions are written with) and
`SparkTypes` (the Spark type tags and `StructField`).

Python values are modelled as follows. `Decimal` results are an unscaled integer and a
decimal exponent. Bytes are integers in 0..255. Regular expressions are hand-written
recognisers over `seq<char>` that take the same first match as Python's engine. Dataclass
objects that the code updates only through a list are values in a `seq` updated by index;
objects that other objects keep referring to while they change (`CobolHostVariable`,
`ValidationResult`) are classes, and so is `EBCDICConverter`, whose constructor works out its
codec and CCSID fields one after the other and never changes them afterwards.

## Model

| member | source | states |
|---|---|---|
| Encoding.DecodePackedDecimal | mf_spark/utils/encoding.py:135-161 | the loop over the bytes returns exactly `PackedValue(data, scale)`: zero for no bytes, otherwise the joined digit nibbles with the point inserted and the 0xD sign |
| Encoding.InsertPoint | mf_spark/utils/encoding.py:151-155 | left-padding and point insertion yield a literal whose value is the digit string's value over 10^scale |
| Encoding.JoinDigitsValue | mf_spark/utils/encoding.py:149 | with digit nibbles at most 9 the joined text has one character per nibble and spells their base-ten value |
| Encoding.PackedMagnitudeIsDigits | mf_spark/utils/encoding.py:139-149 | n bytes hold 2n-1 digits, high then low nibble of each leading byte and the high nibble of the last, and the magnitude is those digits as a number |
| Encoding.PackedSign | mf_spark/utils/encoding.py:146-161 | the value is negative exactly when the final nibble is 0xD and the magnitude is non-zero; any other nibble gives a non-negative value; the exponent is the scale when positive |
| Encoding.PackedExample | mf_spark/utils/encoding.py:131-133 | bytes 12 34 5C with scale 2 decode to 123.45 |
| Encoding.DecodeZonedDecimal | mf_spark/utils/encoding.py:229-256 | the loop returns exactly `ZonedValue(data, scale)`, zero for no bytes |
| Encoding.ZonedDigitsAndSign | mf_spark/utils/encoding.py:236-256 | the magnitude is the low nibbles of all bytes, the last included, as a number; it is negative exactly when the last zone is 0xD and the magnitude is non-zero |
| Encoding.DecodeBinary | mf_spark/utils/encoding.py:273-276 | zero for no bytes; unsigned values lie in [0, 256^n); signed values lie in [-2^(8n-1), 2^(8n-1)) and agree with the big-endian value modulo 256^n |
| Encoding.BigEndianBound | mf_spark/utils/encoding.py:276 | the big-endian value is below 256^n and is fixed to within one unit of its leading byte |
| Encoding.EncodePackedDecimal | mf_spark/utils/encoding.py:180-207 | returns exactly `PackedEncoding(v, precision, scale)`, IndexError included |
| Encoding.PackLoop | mf_spark/utils/encoding.py:192-207 | the pairing loop and the last-byte fix-up produce `PackDigits(digits, sign)` |
| Encoding.EncodeDigits | mf_spark/utils/encoding.py:184-190 | the padded digit string is non-empty and spells the truncated scaled magnitude |
| Encoding.ZFill | mf_spark/utils/encoding.py:190 | padding keeps the value and gives the larger of the two lengths |
| Encoding.PackDigitsShape | mf_spark/utils/encoding.py:192-207 | packing fails exactly on a one-digit string; otherwise the sign is the last byte's low nibble, the digit pairs come first, and the last digit is repeated (even count) or dropped (odd count) |
| Encoding.PackedEncodingSign | mf_spark/utils/encoding.py:180-207 | the sign nibble is 0xC for a value >= 0 and 0xD for a negative one; IndexError occurs exactly when the scaled magnitude is one digit and the precision is at most 1 |
| Encoding.EncodeEvenDigits | mf_spark/utils/encoding.py:199-202 | 12 with precision 2 encodes to 12 2C |
| Encoding.DecodeEvenDigits | mf_spark/utils/encoding.py:135-161 | 12 2C decodes to 122, so the even-count encoding does not round-trip |
| Encoding.EncodeOddDigits | mf_spark/utils/encoding.py:203-205 | 123 with precision 3 encodes to the single byte 1C |
| Encoding.DecodeOddDigits | mf_spark/utils/encoding.py:135-161 | 1C decodes to 1, so the odd-count encoding loses digits |
| Encoding.PackedEncodingFixed | mf_spark/utils/encoding.py:163-207 | the corrected encoder puts the value's sign nibble in the low nibble of the last byte |
| Encoding.PackOddNibbles | mf_spark/utils/encoding.py:192-205 | the corrected packing carries every digit once, in order, before the sign |
| Encoding.PackedRoundTrip | mf_spark/utils/encoding.py:135-207 | decoding the corrected encoding at the same scale gives back the value |
| Encoding.GetCcsid | mf_spark/utils/encoding.py:75-80 | the first-match scan returns exactly `CcsidOf(codec)` |
| Encoding.CcsidOf | mf_spark/utils/encoding.py:75-80 | a CCSID is found exactly when some entry has the codec name, and the entry pairs them |
| Encoding.LookupKey | mf_spark/utils/encoding.py:70 | a dictionary lookup succeeds exactly when the key is present, and returns that key's entry |
| Encoding.CodecFor | mf_spark/utils/encoding.py:70 | the codec of the table entry for the CCSID, or `cp037` when the table has none for it |
| Encoding.CcsidKeysDistinct | mf_spark/utils/encoding.py:19-40 | the table's CCSIDs are pairwise distinct |
| Encoding.CcsidNamesDistinct | mf_spark/utils/encoding.py:19-40 | the table's codec names are pairwise distinct |
| Encoding.CcsidTableInverse | mf_spark/utils/encoding.py:19-40 | codec lookup and CCSID search invert each other on every table entry |
| Encoding.EbcdicConverter.constructor | mf_spark/utils/encoding.py:60-73 | a digit string is resolved through the table with the cp037 fallback; the CCSID is the search result, and when present it maps back to the codec |
| VsamTypes.ParseNormalized | mf_spark/converters/vsam_types.py:180-252 | parsing fails exactly when the clause lacks `PIC`, blanks, an optional S and one of X, A, 9; a result is signed exactly when S is written, SignedNumeric exactly for a signed numeric picture, and its length is the storage length of its usage and digit count (the digit counts and usage each written form gives: VsamTypes.ParenthesisedForm, VsamTypes.InlineForm, VsamTypes.DigitDecimalsReadAsNumber) |
| VsamTypes.ParsePicClause | mf_spark/converters/vsam_types.py:165-178 | the clause is stripped and upper-cased first, so it fails exactly when that text lacks the `PIC` prefix; otherwise its sign and storage length are the prefix's sign and the length formula |
| VsamTypes.MatchInline | mf_spark/converters/vsam_types.py:140-147 | the inline pattern matches exactly when the prefix does, with at least one integer digit |
| VsamTypes.Build | mf_spark/converters/vsam_types.py:198-252 | the parsed record keeps the sign, derives the picture type and computes the storage length by usage (its digits and usage from the matched groups: VsamTypes.BuildOf) |
| VsamTypes.BuildOf | mf_spark/converters/vsam_types.py:198-252 | the parsed clause takes the integer and decimal digit counts of the match, the usage of its COMP group (DISPLAY when there is none), the picture type of its base character and sign, and the storage length of that usage for all its digits |
| VsamTypes.GetStorageBytes | mf_spark/converters/vsam_types.py:345-356 | the storage length of the parsed clause, failing exactly when parsing fails |
| VsamTypes.ParenthesisedForm | mf_spark/converters/vsam_types.py:128-252 | `PIC [S]T(n)[V9(m)][ COMP[-k]][ OCCURS c]`, for T any of X, A, 9 and any digit texts, parses to the picture type of T and the sign, n integer digits, m decimal digits (0 without a V part), the usage written (DISPLAY when none is), and the storage length of that usage for those digits, signed exactly when S is written; the OCCURS count changes nothing |
| VsamTypes.InlineForm | mf_spark/converters/vsam_types.py:140-252 | `PIC [S]R[V9...9][ COMP[-k]]`, for R any run of X, A and 9, parses to the picture type of R's first character, |R| integer digits, as many decimal digits as nines follow V (0 without a V part), the usage written (DISPLAY when none is) and the storage length of that usage, signed exactly when S is written |
| VsamTypes.UsageRead | mf_spark/converters/vsam_types.py:128-137 | a ` COMP`, ` COMP-1` ... ` COMP-5` (or nothing) that ends the clause, optionally followed by ` OCCURS c`, is read as that usage's group |
| VsamTypes.DigitDecimalsReadAsNumber | mf_spark/converters/vsam_types.py:133 | after `V`, digits not written `9(m)` are read as the number they spell, which becomes the decimal scale |
| VsamTypes.DigitDecimalsExample | mf_spark/converters/vsam_types.py:180-185 | `PIC S9(7)V99` has 99 decimal digits, not 2, and maps to DecimalType(106, 99) |
| VsamTypes.PackedStorageVersusNibbles | mf_spark/converters/vsam_types.py:227-229 | the COMP-3 length `(n+1) div 2 + 1` is the packed size of n digits and a sign for even n, and one byte more than it for odd n |
| VsamTypes.PackedBytes | mf_spark/converters/vsam_types.py:227-229 | the packed size of n digits and a sign nibble is the fewest bytes whose nibbles hold them all |
| VsamTypes.FixedPackingFitsStorage | mf_spark/utils/encoding.py:163-207 | the corrected packed encoding of a value takes exactly the packed size of its digit string |
| VsamTypes.NinesAreDecimalPositions | mf_spark/converters/vsam_types.py:180-185 | with decimals counted as positions, `PIC [S]9(n)V` followed by m nines has m decimal digits and maps to DecimalType(n+m, m) |
| VsamTypes.CountedDecimalsExample | mf_spark/converters/vsam_types.py:19-20 | with decimals counted as positions, `PIC S9(7)V99` maps to DecimalType(9, 2), as the documented example says |
| VsamTypes.IntegerTypeFor | mf_spark/converters/vsam_types.py:311-343 | binary and zoned integers become Short, Integer or Long |
| VsamTypes.IntegerTypeHoldsDigits | mf_spark/converters/vsam_types.py:311-343 | the chosen integer type holds every value of up to 18 digits, and more digits never choose a narrower type |
| VsamTypes.MapToSparkType | mf_spark/converters/vsam_types.py:278-309 | X and A pictures map to String whatever the usage; COMP-1 and COMP-2 map to Float and Double; COMP-3 or decimal digits map to Decimal(total, decimals) with scale at most precision; everything else maps to the integer type of its digit count |
| VsamTypes.Convert | mf_spark/converters/vsam_types.py:254-276 | an unparseable clause becomes StringType; otherwise the parsed clause is mapped |
| Db2Types.Prepare | mf_spark/converters/db2_types.py:213-223 | the remaining text is its own strip and its own upper-casing; FOR BIT DATA is noted exactly when it occurs; the type is nullable exactly when NOT NULL does not occur in the upper-cased text, with FOR BIT DATA first taken out when it was noted |
| Db2Types.PreparedText | mf_spark/converters/db2_types.py:213-223 | once FOR BIT DATA and NOT NULL are taken out of upper-case text and the rest stripped, it stays stripped and has no lower-case letter |
| Db2Types.ParseRules | mf_spark/converters/db2_types.py:225-330 | the rules keep the nullability, set no CCSID, give FOR BIT DATA only to the binary category, and give every decimal a precision and a scale but no length |
| Db2Types.ParseType | mf_spark/converters/db2_types.py:203-330 | never fails; nullability is the prepared one; FOR BIT DATA only when the text contains it |
| Db2Types.Convert | mf_spark/converters/db2_types.py:344-361 | a decimal result comes only from a type parsed as decimal and never has precision 0 |
| Db2Types.MatchKeyword | mf_spark/converters/db2_types.py:129-152 | the alternatives are tried in order and the first one whose arguments match is taken |
| Db2Types.DecimalPairForm | mf_spark/converters/db2_types.py:226-236 | DECIMAL, DEC or NUMERIC (p,s) give base DECIMAL with precision p and scale s |
| Db2Types.DecimalPrecisionForm | mf_spark/converters/db2_types.py:226-236 | DECIMAL, DEC or NUMERIC (p) give precision p and scale 0 |
| Db2Types.RuleDecimal | mf_spark/converters/db2_types.py:225-236 | a decimal match decides the whole parsed record |
| Db2Types.CharForm | mf_spark/converters/db2_types.py:250-261 | CHAR, CHARACTER or VARCHAR (n) give length n, of the binary category exactly under FOR BIT DATA |
| Db2Types.RuleChar | mf_spark/converters/db2_types.py:250-261 | a character match decides the parsed record, base name underscored |
| Db2Types.CharMapping | mf_spark/converters/db2_types.py:386-405 | a character type maps to Binary under FOR BIT DATA and to String otherwise |
| Db2Types.GraphicForm | mf_spark/converters/db2_types.py:263-273 | GRAPHIC or VARGRAPHIC (n) keep the declared length n |
| Db2Types.GraphicMapping | mf_spark/converters/db2_types.py:401-405 | a graphic type maps to String |
| Db2Types.LobForm | mf_spark/converters/db2_types.py:287-302 | BLOB, CLOB or DBCLOB (n u) have length n times 1024, 1024^2 or 1024^3; BLOB is binary, the others character |
| Db2Types.LobBareForm | mf_spark/converters/db2_types.py:291-295 | a LOB without a size has length 0 |
| Db2Types.RuleLob | mf_spark/converters/db2_types.py:287-302 | a LOB match decides the parsed record |
| Db2Types.LobMapping | mf_spark/converters/db2_types.py:386-405 | BLOB maps to Binary, CLOB and DBCLOB to String |
| Db2Types.RuleTimestamp | mf_spark/converters/db2_types.py:304-314 | a timestamp match decides the parsed record, precision 6 by default |
| Db2Types.TimestampBareForm | mf_spark/converters/db2_types.py:307 | a bare TIMESTAMP has precision 6 |
| Db2Types.TimestampPrecisionForm | mf_spark/converters/db2_types.py:304-314 | TIMESTAMP(p) has precision p and no time zone |
| Db2Types.TimestampZoneForm | mf_spark/converters/db2_types.py:308-310 | TIMESTAMP WITH TIME ZONE is of kind TIMESTAMP_WITH_TZ with precision 6 |
| Db2Types.TimestampMapping | mf_spark/converters/db2_types.py:389-394 | both timestamp kinds map to Timestamp |
| Db2Types.FindSimpleType | mf_spark/converters/db2_types.py:316-323 | the loop finds the first table entry, in table order, that begins the text |
| Db2Types.FirstPrefix | mf_spark/converters/db2_types.py:317-318 | a found entry begins the text and no earlier one does |
| Db2Types.DoublePrecisionShadowed | mf_spark/converters/db2_types.py:165-179 | DOUBLE PRECISION is never found: text beginning with it is read as DOUBLE |
| Db2Types.SimpleForm | mf_spark/converters/db2_types.py:316-343 | when no rule with arguments matches, the first prefix entry decides base, category and Spark type |
| Db2Types.UnknownForm | mf_spark/converters/db2_types.py:325-330 | text no rule recognises is UNKNOWN of the character category and maps to String |
| Db2Types.SimpleLookup | mf_spark/converters/db2_types.py:374-375 | the table lookup succeeds exactly for a key of the table and returns that key's type |
| Db2Types.SimpleNamesDistinct | mf_spark/converters/db2_types.py:165-179 | the table's keys are distinct |
| Db2Types.OrDefault | mf_spark/converters/db2_types.py:379-380 | `value or default`: None and 0 both give the default |
| Db2Types.DecimalMapping | mf_spark/converters/db2_types.py:378-381 | a decimal maps to Decimal(precision or 18, scale or 0) |
| Db2Types.MapToSparkType | mf_spark/converters/db2_types.py:363-405 | only the decimal category maps to a Decimal, and never with precision 0 |
| Db2Types.GetCodec | mf_spark/converters/db2_types.py:407-418 | a CCSID outside the table gives cp037 |
| Db2Types.GetCodecKnown | mf_spark/converters/db2_types.py:407-418 | a table CCSID, or 0 or None standing for a default that is in the table, gives that entry's codec |
| CopybookParser.MatchLevel | mf_spark/parsers/copybook_parser.py:104-109 | a level match has a two-digit level below 100 and a non-empty name (which level, name and rest a written line gives: CopybookParser.LevelRead) |
| CopybookParser.LevelRead | mf_spark/parsers/copybook_parser.py:104-109 | a line of two digits, a blank, a name of word characters and hyphens, and a rest that is empty or starts with a blank, is matched with the level those digits spell, that name and that rest |
| CopybookParser.MatchPicture | mf_spark/parsers/copybook_parser.py:111-116 | a picture match has at most one S and a non-empty integer part (which sign, run and fraction a written clause gives: CopybookParser.PictureRead) |
| CopybookParser.PictureRead | mf_spark/parsers/copybook_parser.py:111-116 | a `PIC` clause written with a sign, a run of X, A or 9 with an optional count and an optional V fraction, followed by a blank or the end, is matched with exactly that sign, run and fraction |
| CopybookParser.SearchFirst | mf_spark/parsers/copybook_parser.py:317-341 | `search` finds nothing exactly when no position matches, and otherwise the match at the first matching position |
| CopybookParser.RebuildPicture | mf_spark/parsers/copybook_parser.py:327-343 | a rebuilt clause begins with `PIC ` (which clause written groups give: CopybookParser.PictureRebuilt) |
| CopybookParser.PictureRebuilt | mf_spark/parsers/copybook_parser.py:327-343 | the clause is `PIC `, the sign and the run, the V fraction, and a blank and the COMP word when one was found; none when the picture search finds nothing |
| CopybookParser.ClausesRead | mf_spark/parsers/copybook_parser.py:317-343 | the PIC, COMP, OCCURS and REDEFINES clauses written after the name are read back: the rebuilt picture clause, the OCCURS count and the upper-cased REDEFINES target, each absent when not written |
| CopybookParser.LineRead | mf_spark/parsers/copybook_parser.py:286-356 | a line `LL NAME[ PIC ...][ COMP[-k]][ OCCURS c][ REDEFINES t].` is parsed to exactly the field with level LL, the upper-cased name, the rebuilt picture clause, OCCURS c (1 when absent), the upper-cased target, FILLER by name and a group exactly when there is no picture and it is not FILLER; levels 66 and 88 give none |
| CopybookParser.AmountLineRead | mf_spark/parsers/copybook_parser.py:286-356 | `05 AMOUNT PIC S9(7)V99 COMP-3.` is parsed to the elementary field AMOUNT at level 5 with picture clause `PIC S9(7)V99 COMP-3` |
| CopybookParser.ParseLine | mf_spark/parsers/copybook_parser.py:286-356 | None exactly when the line, trailing periods removed, has no level and name or has level 66 or 88; otherwise the upper-cased name and REDEFINES target, FILLER by name, OCCURS 1 by default, and a group exactly when there is no picture and the name is not FILLER (the field a written line gives: CopybookParser.LineRead) |
| CopybookParser.BeforeStar | mf_spark/parsers/copybook_parser.py:270-271 | the text before the first `*`, or all of it |
| CopybookParser.Flush | mf_spark/parsers/copybook_parser.py:264-267 | a pending statement is emitted when a new one begins |
| CopybookParser.CleanLine | mf_spark/parsers/copybook_parser.py:245-279 | one source line changes the statements and the pending line as `CleanStep` says |
| CopybookParser.CleanContent | mf_spark/parsers/copybook_parser.py:235-284 | the loop returns `CleanLines(content)`: non-empty statements without line breaks, no more of them than source lines |
| CopybookParser.CleanLinesWellFormed | mf_spark/parsers/copybook_parser.py:244-284 | every cleaned line is a non-empty statement without line breaks |
| CopybookParser.CommentLineIgnored | mf_spark/parsers/copybook_parser.py:252-254 | a line with `*` in column 7 changes nothing |
| CopybookParser.StatementsNotJoined | mf_spark/parsers/copybook_parser.py:264-279 | a statement without a final period is emitted alone when the next line begins: the two lines are not joined |
| CopybookParser.StatementsJoined | mf_spark/parsers/copybook_parser.py:264-279 | with statements joined, a line without a final period and the next line ending with one come out as one statement, the two joined by a space |
| CopybookParser.JoinedHeldUntilPeriod | mf_spark/parsers/copybook_parser.py:264-279 | with statements joined, a step emits nothing exactly while a statement is held open, and otherwise emits one statement that ends with a period |
| CopybookParser.LastNamed | mf_spark/parsers/copybook_parser.py:212-215 | the reversed search finds the last field with the name, or reports that none has it |
| CopybookParser.PopParents | mf_spark/parsers/copybook_parser.py:192-193 | the popped stack is a prefix whose top is below the level, and every popped entry is at or above it |
| CopybookParser.PoppedBelow | mf_spark/parsers/copybook_parser.py:191-193 | popping the stack for a level leaves exactly the open groups whose level is lower, in order |
| CopybookParser.TopIsParent | mf_spark/parsers/copybook_parser.py:191-197 | the top of the popped stack is the nearest open group of lower level, and an empty stack means there is none |
| CopybookParser.ParentUnique | mf_spark/parsers/copybook_parser.py:191-197 | an item has only one parent link |
| CopybookParser.NestedParents | mf_spark/parsers/copybook_parser.py:191-227 | with `01 A.`, `05 B.`, `10 C PIC X.` and `05 D PIC X.`, C belongs to B and D to A, because D's level closes B |
| CopybookParser.Settle | mf_spark/parsers/copybook_parser.py:191-216 | the stack is popped to exactly the open groups of lower level; the field's parent is the top of that stack; the layout, the REDEFINES offset and the storage error are as the loop gives them |
| CopybookParser.Place | mf_spark/parsers/copybook_parser.py:195-207 | the parent is the stack top; the running offset is given as the code decides; an elementary field gets its storage length, or the error computing it |
| CopybookParser.Overlay | mf_spark/parsers/copybook_parser.py:209-216 | a REDEFINES field takes the offset of the last earlier output field with the redefined name |
| CopybookParser.RedefinesAdvances | mf_spark/parsers/copybook_parser.py:204-216 | with A of 4 bytes, B REDEFINES A of 4 bytes and then C, C starts at byte 8 although A and B share 4 bytes |
| CopybookParser.OverlayTakesNoRoom | mf_spark/parsers/copybook_parser.py:209-216 | an item that redefines another adds nothing to the occupied size, wherever it stands |
| CopybookParser.OverlayLaidOut | mf_spark/parsers/copybook_parser.py:209-216 | the overlay changes only the offset of a field that redefines another, and the running offset is not rewound |
| CopybookParser.AppendChild | mf_spark/parsers/copybook_parser.py:218-223 | the child is recorded with the last output field of the parent's name |
| CopybookParser.Link | mf_spark/parsers/copybook_parser.py:218-223 | the field is added to the children of the last kept field named as its parent, and only when it has a parent |
| CopybookParser.Record | mf_spark/parsers/copybook_parser.py:218-231 | the field is recorded as a child, pushed exactly when it is a group so the stack stays the open groups, the running offset advances by an elementary field's total length, and the output and children lists stay consistent |
| CopybookParser.OpenGroupsAfter | mf_spark/parsers/copybook_parser.py:225-227 | pushing a declared group onto the popped stack, or leaving the stack alone for any other field, leaves exactly the groups still open |
| CopybookParser.Emit | mf_spark/parsers/copybook_parser.py:229-231 | the field is output unless it is FILLER and fillers are ignored |
| CopybookParser.Declare | mf_spark/parsers/copybook_parser.py:186-231 | one field: its parent link (the nearest still-open group of lower level, or none when there is none), the open groups (exactly the stack), its layout (a REDEFINES item at the offset of the last kept field with the redefined name), the output with every children list, and the running total of elementary sizes are kept up to date, or the storage error is reported |
| CopybookParser.ParseStatement | mf_spark/parsers/copybook_parser.py:187-189 | a statement adds its parsed field, if any, to the declared fields |
| CopybookParser.DeclareStatement | mf_spark/parsers/copybook_parser.py:186-231 | one loop iteration either fails on the statement's storage length or extends declarations, output, children lists, layout and REDEFINES offsets by it, its parent being the nearest still-open group of lower level and the stack holding exactly the open groups |
| CopybookParser.DeclareAll | mf_spark/parsers/copybook_parser.py:186-233 | the loop stops at the first failing statement or leaves the whole progress invariant established: REDEFINES offsets, children lists, each parent the nearest still-open group of lower level, and the stack exactly the open groups |
| CopybookParser.ParseLines | mf_spark/parsers/copybook_parser.py:179-233 | on success the items are the declared fields laid out with parent links, each the nearest earlier still-open group of lower level (none exactly when there is no such group), every REDEFINES item at the offset of the last kept field with its target's name, and the output keeps them in order with each field's children, in order; a failure names the statement that caused it |
| CopybookParser.ParseContent | mf_spark/parsers/copybook_parser.py:169-233 | the cleaned statements are parsed: each elementary item has the storage length of its picture; each item that does not redefine another starts at the total size of the elementary items before it, ignored fillers included (a non-elementary FILLER under a group keeps offset 0); each parent is the nearest earlier group still open (no item after it is at its level or above) whose level is lower than the item's, and the item records its name, or there is no parent exactly when no such group exists; the only failure is a picture without a storage length; a REDEFINES item starts at the offset of the last kept field with the redefined name, and each output field lists, in order, the names of the later items whose parent is it |
| CopybookParser.ChildrenAppend | mf_spark/parsers/copybook_parser.py:218-223 | declaring one more item adds its name to the children of exactly the item its parent's name finds among the kept fields |
| CopybookParser.LinkedChildLists | mf_spark/parsers/copybook_parser.py:218-230 | recording a child in the output field that its parent's name finds keeps every children list equal to the children of its item |
| CopybookParser.GetElementaryFields | mf_spark/parsers/copybook_parser.py:373-383 | exactly the elementary non-FILLER fields (the order is kept: CopybookParser.ElementaryFieldsAppend) |
| CopybookParser.ElementaryFieldsAppend | mf_spark/parsers/copybook_parser.py:373-383 | the elementary fields of two runs of fields are those of the first, then those of the second |
| CopybookParser.GetRecordLength | mf_spark/parsers/copybook_parser.py:385-400 | the furthest end of an elementary field, 0 when there is none |
| CopybookParser.ToSparkSchema | mf_spark/parsers/copybook_parser.py:402-419 | one nullable field per elementary non-FILLER field, in order, named as the field and typed by converting its picture |
| DdlParser.FullName | mf_spark/parsers/ddl_parser.py:78-81 | the schema, a dot, then the table name |
| DdlParser.DropLineComments | mf_spark/parsers/ddl_parser.py:244 | no `--` is left, the line break stays, and text without `--` is unchanged (what is kept: DdlParser.LineCommentDropped, DdlParser.LineCommentToEnd) |
| DdlParser.LineCommentDropped | mf_spark/parsers/ddl_parser.py:244 | `a--b` and a line break: the text a before the comment and the line break stay, the comment goes, and the rest is cleaned on its own |
| DdlParser.LineCommentToEnd | mf_spark/parsers/ddl_parser.py:244 | a comment that runs to the end of the text goes with everything after `--`; the text before it stays |
| DdlParser.DropBlockComments | mf_spark/parsers/ddl_parser.py:245 | the text does not grow, and text without `/*` is unchanged (what is kept: DdlParser.BlockCommentDropped) |
| DdlParser.BlockCommentDropped | mf_spark/parsers/ddl_parser.py:245 | a block comment goes with both its markers up to the first closer; the text before it stays, and the rest is cleaned on its own |
| DdlParser.CleanContent | mf_spark/parsers/ddl_parser.py:237-250 | the result has no blank run other than single inner spaces (its words: DdlParser.CleanContentWords) |
| DdlParser.CleanContentWords | mf_spark/parsers/ddl_parser.py:237-250 | the words of the cleaned content are those of the text with its comments dropped, and those of the content itself when it has no comment markers |
| DdlParser.CleanContentFixed | mf_spark/parsers/ddl_parser.py:237-250 | normalised text without comment markers is already clean |
| DdlParser.SplitColumns | mf_spark/parsers/ddl_parser.py:252-282 | the character loop computes the parts of `SplitScan` |
| DdlParser.SplitScanPieces | mf_spark/parsers/ddl_parser.py:262-282 | the scan's raw pieces joined by commas are the input |
| DdlParser.SplitPieces | mf_spark/parsers/ddl_parser.py:262-282 | the content splits exactly at its commas outside parentheses; the parts are the stripped pieces, the last one dropped when blank |
| DdlParser.TypeEnd | mf_spark/parsers/ddl_parser.py:120 | a type match is non-empty and inside the text |
| DdlParser.DefaultAt | mf_spark/parsers/ddl_parser.py:301-306 | the default has no comma and is stripped |
| DdlParser.ParseColumn | mf_spark/parsers/ddl_parser.py:284-313 | a column has an upper-case word name and an upper-case type beginning with a letter, and no key flags |
| DdlParser.ParseRendered | mf_spark/parsers/ddl_parser.py:284-313 | a column definition written as DDL is read back with its name, type and argument, nullability and default |
| DdlParser.TailRead | mf_spark/parsers/ddl_parser.py:120-122 | NOT NULL is found exactly when written, and the default is read back |
| DdlParser.MatchPrimaryKey | mf_spark/parsers/ddl_parser.py:126-129 | a match begins with PRIMARY and gives a non-empty column list without `)` (which list: DdlParser.PrimaryKeyListRead) |
| DdlParser.PrimaryKeyListRead | mf_spark/parsers/ddl_parser.py:197-202 | `PRIMARY KEY (a, b, ...)` is classified as a primary key on exactly the names a, b, ... |
| DdlParser.KeyColumns | mf_spark/parsers/ddl_parser.py:201 | one stripped name per comma-separated piece |
| DdlParser.MatchForeignKey | mf_spark/parsers/ddl_parser.py:131-135 | a match begins with FOREIGN (what a written clause gives: DdlParser.NamedForeignKeyRead) |
| DdlParser.NamedForeignKeyRead | mf_spark/parsers/ddl_parser.py:204-209 | `FOREIGN KEY n (c) REFERENCES s.t (rc)` is classified as a foreign key on the stripped c referencing `s.t.rc` |
| DdlParser.UnnamedForeignKeyReadAsColumn | mf_spark/parsers/ddl_parser.py:131-135 | `FOREIGN KEY (c) REFERENCES s.t (rc)`, without a constraint name, is not matched as a foreign key and is read as a column named FOREIGN of type `KEY (c)` |
| DdlParser.MatchForeignKeyNameOptional | mf_spark/parsers/ddl_parser.py:131-135 | the pattern with an optional constraint name matches every clause the pattern as written matches, with the same groups |
| DdlParser.NameOptionalForeignKeyRead | mf_spark/parsers/ddl_parser.py:131-135 | with the constraint name optional, a foreign key with or without a name is read as the stripped column referencing `s.t.rc` |
| DdlParser.Classify | mf_spark/parsers/ddl_parser.py:192-220 | blank exactly when the stripped part is empty; constraint words are skipped; a primary key has columns; a column has no key flags |
| DdlParser.Kinds | mf_spark/parsers/ddl_parser.py:192-220 | each part is classified, in order |
| DdlParser.CollectParts | mf_spark/parsers/ddl_parser.py:185-220 | the classifying loop computes `Collect(kinds)` |
| DdlParser.CollectColumns | mf_spark/parsers/ddl_parser.py:217-220 | the collected columns are the column parts, in order |
| DdlParser.CollectUnflagged | mf_spark/parsers/ddl_parser.py:308-313 | collected columns carry no key flags |
| DdlParser.PrimaryKeyNone | mf_spark/parsers/ddl_parser.py:186 | without a PRIMARY KEY part the key list stays empty |
| DdlParser.PrimaryKeyLastWins | mf_spark/parsers/ddl_parser.py:197-202 | the last PRIMARY KEY part gives the key list |
| DdlParser.ForeignKeyColumns | mf_spark/parsers/ddl_parser.py:204-211 | a column has a reference exactly when a FOREIGN KEY part names it |
| DdlParser.ForeignKeyLastWins | mf_spark/parsers/ddl_parser.py:204-211 | the last FOREIGN KEY part for a column gives its reference |
| DdlParser.FlagColumns | mf_spark/parsers/ddl_parser.py:222-227 | each column is flagged in place, in order |
| DdlParser.AssembleFlags | mf_spark/parsers/ddl_parser.py:176-235 | the schema defaults to DBO; the columns are the column parts in order, a primary key exactly when the name is in the key list, and with a reference exactly when the name has a foreign key |
| DdlParser.MatchCreateAt | mf_spark/parsers/ddl_parser.py:111-116 | a match begins with CREATE and has word-character schema and table names (what a written statement gives: DdlParser.CreateRead) |
| DdlParser.TableName | mf_spark/parsers/ddl_parser.py:113 | an optional schema and a table name, both words (which names: DdlParser.CreateRead) |
| DdlParser.CreateRead | mf_spark/parsers/ddl_parser.py:111-116 | `CREATE TABLE s.t (body)` is matched with schema s, table t and the text up to the last closing parenthesis as the column text |
| DdlParser.CreateSearch | mf_spark/parsers/ddl_parser.py:176 | the search finds nothing exactly when the pattern matches at no position |
| DdlParser.ParseContent | mf_spark/parsers/ddl_parser.py:162-235 | ValueError exactly when the cleaned text has no CREATE TABLE match; otherwise the table assembled from the first match |
| DdlParser.ToSparkSchema | mf_spark/parsers/ddl_parser.py:315-332 | one field per column, in order, with its name, its converted DB2 type and its nullability |
| DclParser.GatherEach | mf_spark/parsers/dcl_parser.py:227-244 | a loop that keeps one element per item keeps them all, in item order |
| DclParser.GatherFrom | mf_spark/parsers/dcl_parser.py:261-292 | everything a loop keeps was produced by one of its items |
| DclParser.GatherAtMost | mf_spark/parsers/dcl_parser.py:261-292 | a loop that keeps at most one element per item keeps no more elements than items |
| DclParser.FirstClose | mf_spark/parsers/dcl_parser.py:110 | the lazy body ends at a `)` followed by optional blanks and END-EXEC |
| DclParser.FirstCloseLeast | mf_spark/parsers/dcl_parser.py:110 | no closing position comes before the one found, so the body is the shortest |
| DclParser.DeclareBody | mf_spark/parsers/dcl_parser.py:110 | the body is shorter than what follows the `(` |
| DclParser.MatchDeclareAt | mf_spark/parsers/dcl_parser.py:107-112 | a match begins with EXEC (any case) and has a table name that starts with a word character (what a written DECLARE gives: DclParser.DeclareRead) |
| DclParser.DeclareRead | mf_spark/parsers/dcl_parser.py:181-191 | `EXEC SQL DECLARE s.t TABLE (body) END-EXEC` is found with `s.t` as the table name and the whole body, whatever parentheses it holds, when END-EXEC does not occur in it; the name splits back into s and t |
| DclParser.DeclaredNameStart | mf_spark/parsers/dcl_parser.py:109 | the qualified table name is non-empty and starts with a word character |
| DclParser.DeclareSearch | mf_spark/parsers/dcl_parser.py:182-183 | the search finds nothing exactly when the pattern matches at no position |
| DclParser.IndexOf | mf_spark/parsers/dcl_parser.py:188-189 | the first occurrence of a character, or none exactly when it is absent |
| DclParser.SplitTableName | mf_spark/parsers/dcl_parser.py:187-191 | with a dot, the schema (which has no dot), a dot and the table give back the name; without one the schema is empty and the table is the name |
| DclParser.ParseSqlColumn | mf_spark/parsers/dcl_parser.py:232-242 | a column has an upper-case word name and an upper-case type beginning with a letter, no default and no key flags |
| DclParser.SqlColumnSteps | mf_spark/parsers/dcl_parser.py:115-120 | a part whose name, type and NOT NULL are read step by step becomes that column |
| DclParser.ParseSqlRendered | mf_spark/parsers/dcl_parser.py:232-242 | a column definition written as DB2 SQL is read back with its name, type and nullability |
| DclParser.ParseSqlColumns | mf_spark/parsers/dcl_parser.py:212-244 | the part loop keeps the parsed columns of the split parts, in order |
| DclParser.TwoDigits | mf_spark/parsers/dcl_parser.py:131 | a two-digit level is below 100 (the value read: DclParser.FieldLineRead) |
| DclParser.PicRun | mf_spark/parsers/dcl_parser.py:132 | the picture run stops at the first blank or period |
| DclParser.PicGroup | mf_spark/parsers/dcl_parser.py:132 | a picture is non-empty and holds no period (which picture: DclParser.FieldLineRead) |
| DclParser.CompGroup | mf_spark/parsers/dcl_parser.py:133 | a usage found is COMP or COMP-1 to COMP-5 in any case, and the group ends right after it; without one the group is empty |
| DclParser.UsageGroup | mf_spark/parsers/dcl_parser.py:134 | a USAGE word is non-empty (which word: DclParser.FieldLineRead) |
| DclParser.MatchFieldAt | mf_spark/parsers/dcl_parser.py:130-136 | a match has a two-digit level and a non-empty name of word characters and hyphens (which level, name, picture and usage: DclParser.FieldLineRead) |
| DclParser.FieldSearch | mf_spark/parsers/dcl_parser.py:267 | the search returns the match at the first matching position |
| DclParser.FoundField | mf_spark/parsers/dcl_parser.py:267-270 | the field found has a level below 100 and a non-empty name |
| DclParser.PicClause | mf_spark/parsers/dcl_parser.py:280-286 | a PIC clause exactly when a picture was matched, and it starts with `PIC ` (the text built: DclParser.FieldLineRead) |
| DclParser.DeclOf | mf_spark/parsers/dcl_parser.py:263-292 | a declared variable never has level 01 or 49, has an upper-case name, and a PIC clause that starts with `PIC ` (what a written line declares: DclParser.FieldLineRead) |
| DclParser.FieldLineRead | mf_spark/parsers/dcl_parser.py:263-292 | a line `LL NAME[ PIC p][ COMP-n][ USAGE w].` declares the upper-cased name at level LL with `PIC p` followed by the COMP usage, or else the USAGE word, as its picture clause, and none without a picture; levels 01 and 49 declare nothing |
| DclParser.DeclSeqFrom | mf_spark/parsers/dcl_parser.py:263-292 | what a line contributes to the declarations is its own declaration |
| DclParser.ReadLine | mf_spark/parsers/dcl_parser.py:262-292 | the one loop iteration contributes exactly the declaration the line holds, or nothing |
| DclParser.UpperName | mf_spark/parsers/dcl_parser.py:270 | upper-casing keeps a COBOL name a COBOL name and leaves no lower-case letter |
| DclParser.DeclsFromLines | mf_spark/parsers/dcl_parser.py:260-294 | every variable comes from one of the lines, and none has level 01 or 49 |
| DclParser.DeclsNext | mf_spark/parsers/dcl_parser.py:261-292 | one more line adds its declaration, if it has one, at the end of those of the lines before it |
| DclParser.DeclsToGathered | mf_spark/parsers/dcl_parser.py:261-292 | the declarations of the first n lines are exactly what the line loop gathers from them |
| DclParser.LineDecls | mf_spark/parsers/dcl_parser.py:263-292 | blank and unmatched lines and levels 01 and 49 add nothing; any other match adds one variable |
| DclParser.HostVariable.constructor | mf_spark/parsers/dcl_parser.py:30-44 | a host variable holds its declaration and no SQL column yet |
| DclParser.ParseCobolRecord | mf_spark/parsers/dcl_parser.py:246-294 | the host variables declare exactly the declarations of the record's lines, in line order; each is new and has no SQL column |
| DclParser.DeclareVariables | mf_spark/parsers/dcl_parser.py:260-294 | the line loop creates one new host variable, without a SQL column, for each declaration of the lines, in line order |
| DclParser.SqlName | mf_spark/parsers/dcl_parser.py:307-310 | the name loses its `DCL-` prefix and keeps no hyphen |
| DclParser.CobolName | mf_spark/parsers/dcl_parser.py:300-302 | the DCLGEN naming rule turns underscores into hyphens |
| DclParser.SqlNameOfDclName | mf_spark/parsers/dcl_parser.py:300-310 | the SQL name of `DCL-` plus the COBOL name of a column is that column |
| DclParser.SqlNameOfCobolName | mf_spark/parsers/dcl_parser.py:300-310 | the SQL name of the COBOL name of a column is that column, unless the column begins with `DCL_` |
| DclParser.CobolPrefix | mf_spark/parsers/dcl_parser.py:308-309 | a COBOL name starts with `DCL-` only when its column starts with `DCL_` |
| DclParser.ColumnFor | mf_spark/parsers/dcl_parser.py:312-316 | a column exactly when one has the variable's SQL name, and then that name |
| DclParser.MapColumnsToVariables | mf_spark/parsers/dcl_parser.py:296-316 | each variable gets the column of its SQL name when there is one and keeps its old value otherwise |
| DclParser.CountOnLine | mf_spark/parsers/dcl_parser.py:140 | the lazy `.*?` reaches IS from where it starts without crossing a line break, at the first position that gives a count; the blanks before it and after IS may span lines |
| DclParser.CountFrom | mf_spark/parsers/dcl_parser.py:139-142 | no count is found only when no position from the start up to the next line break gives one (where a found count comes from: DclParser.CountOnLine) |
| DclParser.MatchCountAt | mf_spark/parsers/dcl_parser.py:139-142 | a match begins with `NUMBER` in any case and its count is the lazy scan's from a later position |
| DclParser.FindCount | mf_spark/parsers/dcl_parser.py:199-202 | a count found is the match at some position of the content |
| DclParser.CountSearch | mf_spark/parsers/dcl_parser.py:201-202 | the search finds nothing exactly when the pattern matches at no position |
| DclParser.ReadDeclaration | mf_spark/parsers/dcl_parser.py:181-195 | without a DECLARE all is empty; otherwise the table name, its split into schema and table, and the parsed columns of the body |
| DclParser.ParseContent | mf_spark/parsers/dcl_parser.py:169-210 | the declaration as above; the column count from the comment, or else the number of columns; the host variables of the record, each mapped to the column of its SQL name |
| DclParser.ToSparkSchema | mf_spark/parsers/dcl_parser.py:342-359 | one field per SQL column, in order, with its name, its converted DB2 type and its nullability |
| TypeMapper.Convert | mf_spark/converters/type_mapper.py:57-100 | a VSAM type goes through the VSAM converter and a DB2 type through the DB2 converter; any other source is an error naming that source |
| TypeMapper.BuildSchemaFromVsam | mf_spark/converters/type_mapper.py:102-127 | one nullable field per definition, in order, with its name and converted picture |
| TypeMapper.BuildSchemaFromDb2 | mf_spark/converters/type_mapper.py:129-154 | one field per column, in order, with its name, converted DB2 type and nullability |
| TypeMapper.CompatibleClasses | mf_spark/converters/type_mapper.py:177-196 | two types are compatible exactly when both are numeric or they are equal; the relation is reflexive, symmetric and transitive |
| TypeMapper.GetCompatibleTypes | mf_spark/converters/type_mapper.py:156-184 | the two converted types and whether they are compatible; two decimals always are, and a string only with a string |
| SchemaValidator.CompatibleTargets | mf_spark/validators/schema_validator.py:116-128 | every type class may be written to its own class and to a string |
| SchemaValidator.CheckTypeCompatibility | mf_spark/validators/schema_validator.py:210-259 | exactness implies compatibility; equal types match exactly; decimals fit a decimal of no less precision and scale, exactly when both are equal; other pairs are never exact and are compatible exactly when promotion is allowed and the matrix lists the target's class |
| SchemaValidator.NoPromotion | mf_spark/validators/schema_validator.py:253-257 | without promotion only equal types and widened decimals are compatible |
| SchemaValidator.IntoString | mf_spark/validators/schema_validator.py:116-128 | with promotion every type may be written to a string, exactly only from a string |
| SchemaValidator.Widening | mf_spark/validators/schema_validator.py:116-128 | every promotion the matrix lists strictly widens the type |
| SchemaValidator.MatrixAntisymmetric | mf_spark/validators/schema_validator.py:116-128 | no two different classes may each be promoted to the other |
| SchemaValidator.ClassesDiffer | mf_spark/validators/schema_validator.py:248-249 | two different types that are not both decimals have different classes |
| SchemaValidator.Antisymmetric | mf_spark/validators/schema_validator.py:210-259 | two different types are never compatible in both directions |
| SchemaValidator.Names | mf_spark/validators/schema_validator.py:166-167 | the field names, in order |
| SchemaValidator.FieldMap | mf_spark/validators/schema_validator.py:169-170 | the dictionary has exactly the field names as keys |
| SchemaValidator.FieldMapLast | mf_spark/validators/schema_validator.py:169-170 | a name maps to the last field of that name |
| SchemaValidator.VerdictMaps | mf_spark/validators/schema_validator.py:181-199 | mismatches and compatible changes are matching fields and never the same field |
| SchemaValidator.VerdictStep | mf_spark/validators/schema_validator.py:185-199 | one more field goes into the mismatches when incompatible, into the changes when compatible but not exact, and nowhere otherwise |
| SchemaValidator.CompareSchemas | mf_spark/validators/schema_validator.py:148-208 | the field names; matching and missing fields as set intersection and differences; the mismatches and changes of the matching fields, disjoint; compatible exactly when there is no mismatch, no missing target field unless allowed, and no change in strict mode |
| SchemaValidator.SelfComparison | mf_spark/validators/schema_validator.py:148-208 | a schema compared with itself has no mismatch, no change and no missing field |
| SchemaValidator.MissingErrors | mf_spark/validators/schema_validator.py:282-285 | at most one error per required name, each for a required name that is absent |
| SchemaValidator.MissingReported | mf_spark/validators/schema_validator.py:282-285 | every absent required name is reported |
| SchemaValidator.MissingStep | mf_spark/validators/schema_validator.py:283-285 | one more required name adds its error at the end when it is absent |
| SchemaValidator.TypeErrors | mf_spark/validators/schema_validator.py:288-297 | at most one error per expected type, each for a present field whose class differs from the expected one (every such field is reported: SchemaValidator.TypeReported) |
| SchemaValidator.TypeReported | mf_spark/validators/schema_validator.py:288-297 | every expected field that is present with a different type class is reported with both classes |
| SchemaValidator.TypeStep | mf_spark/validators/schema_validator.py:289-297 | one more expected type adds its error at the end when the field is present with another class |
| SchemaValidator.ValidateSchema | mf_spark/validators/schema_validator.py:261-299 | the missing-field errors then the type errors, and valid exactly when there are none |
| SchemaValidator.InferTargetSchema | mf_spark/validators/schema_validator.py:301-335 | one field per source field, in order, renamed and retyped by the mappings |
| SchemaValidator.TargetFieldKeeps | mf_spark/validators/schema_validator.py:321-333 | nullability is kept, and a field that no mapping names is unchanged |
| DataValidator.ValidationResult.constructor | mf_spark/validators/data_validator.py:33-40 | a new result is valid, has counted no record, expects no count and holds no message |
| DataValidator.ValidationResult.AddError | mf_spark/validators/data_validator.py:42-45 | the message is appended to the errors and the result is invalid from then on, and consistent |
| DataValidator.ValidationResult.AddWarning | mf_spark/validators/data_validator.py:47-49 | the message is appended to the warnings; errors and validity do not change |
| DataValidator.CountErrors | mf_spark/validators/data_validator.py:172-193 | at most one error; an empty dataset always fails; otherwise an error exactly when the count differs (no tolerance) or differs by more than the tolerance |
| DataValidator.ExactIsStrictest | mf_spark/validators/data_validator.py:180-193 | a count that passes the exact check passes any non-negative tolerance |
| DataValidator.WiderBound | mf_spark/validators/data_validator.py:186-193 | a count that passes a tolerance passes every wider one |
| DataValidator.ValidateCount | mf_spark/validators/data_validator.py:172-193 | the count errors are appended to the result, which stays valid exactly when it was and none was added; warnings and counts are unchanged |

## Left out

- File reading (`parse_file` in the three parsers) and the Spark data frame work (`convert_ebcdic_column`, `DataValidator.validate`, the required-column, null, metric, checksum and dataset-comparison checks): they are I/O or calls into Spark.
- `EBCDICConverter.decode` and `encode`: they call Python's codecs, which are not part of this model; the converter keeps its codec name and CCSID only.
- `print_layout`, `print_table_definition`, `print_mapping`, `summary` and the `to_dict` methods: text formatting for people and JSON, with no logic of their own.
- The configuration in `mf_spark/config/settings.py`, the orchestration in `mf_spark/core`, the command line and the scripts: they call the core and are not part of this model.
- Encoding.DecodePackedDecimal: Python's `Decimal` keeps the sign of a negative zero (`-0`); the model's unscaled integer does not.
- DataValidator.ValidateCount: `count_tolerance` is a float in the source; the model takes the tolerance as `Exact` (a tolerance of 0.0) or as the integer bound `int(expected * count_tolerance)` that the source computes from it.
- DataValidator.ValidateCount: the error messages are the fixed text before the colon; the expected and actual counts that the source formats into them are left out.
- SchemaValidator.CompareSchemas: the mismatch and change maps hold the two Spark types rather than their `str()` text, and the matching and missing field lists are sets, because the source builds them from Python sets whose order is unspecified.
- SchemaValidator.ValidateSchema: `None` or an empty list of required fields or expected types is an empty sequence, and the expected types are a sequence of pairs for the source's dictionary; an expected type is a type class, the `type()` of a Spark type.
- Db2Types.ParseRules: DECFLOAT, BINARY/VARBINARY and LONG VARCHAR/LONG VARGRAPHIC are parsed by the same rules but have no lemma of their own describing their form.
- Character classes: `\d`, `\w` and `str.upper()` are the ASCII ones; Unicode digits, letters and case mappings are not modelled.
- The converter constructors' `default_encoding` argument is not modelled where it is only stored; `default_ccsid` is a parameter of Db2Types.GetCodec.
- CopybookParser.ParseLine: it requires a line without a line break, as every caller passes a line of `content.split("\n")`.
- CopybookParser.ParseContent: the storage length of a picture that `parse_pic_clause` rejects is an `Err` result, for the `ValueError` the source raises.
- DdlParser.ParseRendered and DclParser.ParseSqlRendered: the round trip is proved for column definitions written in the model's own rendering (single spaces), not for every spelling the patterns accept.
- ParseNormalized: its own contract gives the error condition, the sign and the length formula; the digit counts and usage of the written forms are stated by VsamTypes.ParenthesisedForm, VsamTypes.InlineForm and VsamTypes.DigitDecimalsReadAsNumber, not for every spelling the pattern accepts.
- ParenthesisedForm: a `V` followed by digits other than `9(m)` is covered by DigitDecimalsReadAsNumber, not by this lemma; InlineForm covers only runs whose characters are X, A or 9.
- Build: its own contract gives the sign, picture type and length; which digits and usage it takes from the match is stated by VsamTypes.BuildOf.
- MatchLevel: its own contract gives the shape of a match; the level, name and rest a written line gives are stated by CopybookParser.LevelRead.
- MatchPicture: its own contract gives the shape of a match; the sign, run and fraction a written clause gives are stated by CopybookParser.PictureRead.
- RebuildPicture: its own contract says only that the text begins with `PIC `; the text rebuilt from given groups is stated by CopybookParser.PictureRebuilt and CopybookParser.ClausesRead.
- LineRead: lines are written with upper-case keywords, single blanks, `PIC` (not `PICTURE`) and the clauses in the order PIC, COMP, OCCURS, REDEFINES; other spellings the patterns accept are parsed by the same ParseLine but have no lemma of their own.
- GetElementaryFields: its own contract gives membership; the order is stated by CopybookParser.ElementaryFieldsAppend.
- DropLineComments: its own contract gives what is removed; what is kept is stated by DdlParser.LineCommentDropped and DdlParser.LineCommentToEnd.
- DropBlockComments: its own contract gives what is removed; what is kept is stated by DdlParser.BlockCommentDropped.
- CleanContent: its own contract gives the blank structure of the result; its words are stated by DdlParser.CleanContentWords.
- MatchPrimaryKey: its own contract gives the shape of a match; the column list a written clause gives is stated by DdlParser.PrimaryKeyListRead.
- MatchForeignKey: its own contract gives the shape of a match; what a written clause gives is stated by DdlParser.NamedForeignKeyRead.
- MatchCreateAt: its own contract gives the shape of a match; the schema, table and body of a written statement are stated by DdlParser.CreateRead.
- TableName: which names it reads is stated by DdlParser.CreateRead.
- MatchDeclareAt: its own contract gives the shape of a match; the name and body of a written DECLARE are stated by DclParser.DeclareRead.
- DeclareRead: it requires that `END-EXEC` does not occur inside the body, since the source's lazy body group stops at the first `END-EXEC`.
- TwoDigits, PicGroup, UsageGroup, MatchFieldAt, PicClause: their own contracts give the shape of what they read; the values a written line gives are stated by DclParser.FieldLineRead.
- DeclOf: its own contract gives the shape of a declaration; the declaration of a written line is stated by DclParser.FieldLineRead, for lines with upper-case keywords, single blanks and the clauses in the order PIC, COMP, USAGE.
- TypeErrors: its own contract says every error is justified; that every mismatch is reported is stated by SchemaValidator.TypeReported.
- Encoding.EncodePackedDecimal: `abs(value)` and `value * 10 ** scale` run in Python's default decimal context of 28 significant digits and round longer values; the model computes them exactly.
- Encoding.DecodeZonedDecimal: `result * sign` runs in the same 28-digit context and gives `-0` for a D zone with zero magnitude; the model's unscaled integer is exact and has no negative zero.
- Objects that the parsers keep only inside their result lists (`CopybookField`, `DDLColumn`) are values updated by index, so their identity is not modelled.

## Findings

| source | as written | input that shows it | evidently intended | confidence | as-written member | corrected member |
|---|---|---|---|---|---|---|
| mf_spark/utils/encoding.py:193-205 | with an even number of digits the pair loop already packs the last digit, and it is packed again with the sign | 12 at precision 2 encodes as 0x12 0x2C, which decodes to 122 | every digit packed once, then the sign nibble | not executed | Encoding.EncodeEvenDigits | Encoding.PackedRoundTrip |
| mf_spark/utils/encoding.py:193-205 | with an odd number of digits the loop never packs the last digit, and the sign nibble overwrites the digit before it | 123 at precision 3 encodes as 0x1C, which decodes to 1 | every digit packed once, then the sign nibble | not executed | Encoding.EncodeOddDigits | Encoding.PackedEncodingFixed |
| mf_spark/converters/vsam_types.py:180-185 | after `V`, digits not written `9(m)` are read as the number they spell, so `V99` means 99 decimal places | `PIC S9(7)V99` has 99 decimal digits and maps to DecimalType(106, 99) | each 9 after V is one decimal position, giving DecimalType(9, 2) as the examples at vsam_types.py:19-20 and 123-124 say | not executed | VsamTypes.DigitDecimalsExample | VsamTypes.NinesAreDecimalPositions |
| mf_spark/converters/vsam_types.py:228-229 | the COMP-3 length is `(n + 1) // 2 + 1`, one byte more than the comment's `(n+1)/2` | 9 digits give 6 bytes, while 9 digits and a sign nibble fit in 5 | `n // 2 + 1` bytes, the size of every digit and the sign packed once | not executed | VsamTypes.PackedStorageVersusNibbles | VsamTypes.FixedPackingFitsStorage |
| mf_spark/parsers/copybook_parser.py:204-216 | the offset advances past a REDEFINES item before it is moved back onto the item it redefines | A of 4 bytes, B REDEFINES A of 4 bytes, then C: C starts at 8 | a REDEFINES item takes no room, so C starts at 4 | not executed | CopybookParser.RedefinesAdvances | CopybookParser.OverlayTakesNoRoom |
| mf_spark/parsers/copybook_parser.py:264-279 | a statement without a final period is emitted alone and the next line starts a new one | `05 A PIC X(10)` followed by `VALUE SPACES.` gives two statements | a continued statement is held until its period and joined with the next line | not executed | CopybookParser.StatementsNotJoined | CopybookParser.StatementsJoined |
| mf_spark/parsers/ddl_parser.py:131-135 | the foreign-key pattern requires a constraint name after `KEY` | `FOREIGN KEY (c) REFERENCES s.t (rc)` becomes a column named FOREIGN of type `KEY (c)` | the name is optional and the clause is read as a foreign key on c referencing `s.t.rc` | not executed | DdlParser.UnnamedForeignKeyReadAsColumn | DdlParser.NameOptionalForeignKeyRead |
