# TwinVPN contract messages and registries: a verified model

This project models two parts of TwinVPN and proves what they promise.

**The wire codec of the contract messages** (`contracts/gen/csharp`). A message class has a
printer, a parser that is a tag-dispatch loop over mutable fields, a size predictor, an
object-level merge, a copy constructor and equality with a hash. The central result is a
refinement: parsing the bytes one object writes into another object does what `MergeFrom` does,
for every state of both, through oneof switches, sub-messages merged in place, repeated fields
and unknown fields.

**The append-only registry check** (`scripts/check_registry_append_only.py`). It accepts or
refuses one step of a registry's history. The results say exactly which properties of whole
histories follow.

## How it is built

- `Wire` and `Unknown` are the encoding's primitives: varints, tags, records and the
  unknown-field set, after the sections "Base 128 Varints", "Message Structure",
  "Length-Delimited Records", "Last One Wins", "Packed Repeated Fields" and "Field Order" of the
  Protocol Buffers Encoding guide.
- `Codec` is the template the generated classes instantiate. A class is a list of cells, one for
  each field or oneof; for each kind of cell the template says what is written, what a record
  does to it, and what merging does. Theorems in `Refinement`, `Merging`, `Sizes`, `Ordering`,
  `Equality` and `Concat` hold for every cell list, so for every class and every nesting.
- `Schemas` gives the cell lists of the repository's messages. `Laws` states what the theorems
  say of them.
- `Streams` are the coded streams; `Classes` has one proof step for each kind of field. `Repeated`
  is the runtime's list of strings or numbers. `Capability`, `Common`, `Errors`, `Dns` and
  `Candidate` are the message classes with their mutable fields, and for each element class its
  list class; each method is proved to compute the template's function for the class's own cell
  list, by calling the methods of the objects it holds. `Presence` is the presence-bit word of
  `DNSPolicy`, and `Transfers` puts the classes together.
- `Format`, `Fields`, `Written`, `CaseLabels` and `Hashing` say what the functions of the template
  compute without naming them: what the bytes are, which records each kind of field writes and
  what one record does to it, which field of which class stands under which number, which case
  label of `Device` and its parts moves which field, and what each part adds to a hash.
- `Registry` is the registry check, and `Reports` says on the entries of the two documents, with the
  attribute names written out, what it reports, in which order, and when it raises.

Laws that look natural and fail are kept with a failing input and their exact condition:
associativity of merging (`Laws.ParameterNotAssociative`, `Merging.MergeAssociative`), "the parse
of a concatenation is the merge of the parses" (`Laws.ParseOfConcatIsNotMerge`,
`Concat.ParseOfConcatExactly`), "equal messages have equal hashes" (`Equality.UnequalHashes`,
`Equality.EqualHashesExactly`), composition of accepted registry steps
(`Registry.ReactivationChangesFrozen`, `Registry.StepsCompose`), and "a retired identifier is never
reused for other semantics", which the script's docstring asks for and the check does not enforce
(`Registry.RetiredCodeRedefined`, `Registry.ProtectedExactly`).

Conventions: strings and bytes are byte sequences. Fields are unbounded integers with the range
of their C# type as a subset type. The unknown-field set is the sequence of its records sorted by
field number, which keeps the order within a number. A rejected parse is `None`; nothing is said
about the half-merged object an exception leaves behind. Objects are never null where C# checks
for it; `MergeFrom(null)`, which does nothing, is not a call in the model. In a class, `Held` is
a ghost set of the sub-message held and what it owns. A list's `Contents` are the values of its
element objects and `Below` is a ghost set of the elements and everything below them.

## Model

| member | source | states |
|---|---|---|
| Laws.CodecLaws | contracts/gen/csharp/Errors.cs:657-915 | For each of the twenty modelled messages and all values: parsing the bytes written for `b` into any object is `MergeFrom(b)`; into a new object it gives `b` back; `CalculateSize` is the number of bytes; equal bytes mean equal messages, both ways; n written messages in a row parse to the left fold of `MergeFrom` |
| Laws.DecodeInvariant | contracts/gen/csharp/Capability.cs:289-430 | For every accepted byte string the result keeps, at every depth, no unknown record that a case label handles, and writing and parsing again gives the same message |
| Concat.ParseOfConcatExactly | contracts/gen/csharp/Capability.cs:365-430 | For all accepted byte strings of every message: parsing the concatenation is merging the two parses if and only if the first message absorbs the second part, a condition on the records of the second part |
| Concat.BodyConcat | contracts/gen/csharp/Errors.cs:799-915 | The same for the records of one body parsed into any object, by induction over nested messages |
| Concat.FieldConcat | contracts/gen/csharp/Errors.cs:799-915 | The same for one field: explicit zeros, nested bodies and returning oneof members are the only exceptions |
| Concat.AcceptAnywhere | contracts/gen/csharp/Errors.cs:847-915 | Whether input is accepted does not depend on what the object already holds |
| Laws.ParseOfConcatIsNotMerge | contracts/gen/csharp/Candidate.cs:1825-1865 | A concrete pair of inputs for which parsing the concatenation is not merging the parses |
| Laws.ParameterAssociative | contracts/gen/csharp/Capability.cs:365-388 | Merging capability parameters is associative on (a, b, c) if and only if it is not the case that a holds a non-empty set_value, b uint_value and c set_value |
| Laws.ParameterNotAssociative | contracts/gen/csharp/Capability.cs:365-388 | A failing input: a set of one string, then a number, then an empty set |
| Laws.AddressNotAssociative | contracts/gen/csharp/Common.cs:1921-1941 | A failing input: an IPv4 address, an IPv6 address, an empty IPv4 address |
| Laws.AddressAssociative | contracts/gen/csharp/Common.cs:1921-1941 | Merging IP addresses is associative except exactly when the first and third hold one family, the second the other, and the third does not override the first |
| Laws.MergeMonoid | contracts/gen/csharp/Errors.cs:1951-1985 | MessageMetadata, ErrorEnvelope and CapabilitySet are monoids under `MergeFrom`, the new object being the unit |
| Laws.MetadataOrder | contracts/gen/csharp/Common.cs:3473-3537 | Record sequences that agree on each field number, in order, decode MessageMetadata alike, unknown fields included |
| Laws.PayloadSplits | contracts/gen/csharp/Common.cs:1945-1980 | Cutting the payload of `auth`, `v4` or `v6` at a record boundary into two records decodes to the same message, from every start |
| Laws.PortHintsAnyCut | contracts/gen/csharp/Candidate.cs:1579-1617 | However the port hints are cut into packed chunks and single elements, with any other records between, the list decoded is the one a single packed record gives |
| Laws.RevokedIsOneWay | contracts/gen/csharp/Device.cs:977-1040 | Over every run of merges and of parses of written bytes, a device ends revoked exactly when it began so or a step brought a revoked one |
| Laws.OnlyExplicitZeroResets | contracts/gen/csharp/Device.cs:1044-1136 | Whatever is parsed, a revoked device stops being revoked exactly when the last record of tag 112 holds an explicit zero |
| Laws.FalseIsNotUnset | contracts/gen/csharp/Dns.cs:832-940 | A policy with a presence field unset and the same policy with it set to false are equal and, when false hashes to zero, hash alike; their bytes differ and each reads back as itself |
| Laws.PolicyHashes | contracts/gen/csharp/Dns.cs:858-878 | For DNSPolicy equal messages have equal hashes if and only if `false` hashes to zero |
| Laws.EqualHashLaw | contracts/gen/csharp/Errors.cs:630-647 | Equal messages have equal hashes for every modelled message; only DNSPolicy needs `false` to hash to zero |
| Registry.CheckReasons | scripts/check_registry_append_only.py:42-69 | The loop returns the reports, or raises, as the specification `Checked` says; on the entries: `Reports.ReportedExactly`, `Reports.ReportedInOrder`, `Reports.RaisesExactly` |
| Registry.CheckCaps | scripts/check_registry_append_only.py:72-94 | The same for capabilities, keyed by name and major, with the four frozen attributes |
| Registry.AppendChanges | scripts/check_registry_append_only.py:56-62 | The inner loop appends one report for each frozen attribute that differs, in order |
| Registry.KeyMeans | scripts/check_registry_append_only.py:44-45 | Reading a key succeeds exactly when every key attribute is present, and otherwise names a missing one |
| Registry.IndexedExactly | scripts/check_registry_append_only.py:44-45 | Indexing succeeds exactly when every entry has its key attributes with hashable values |
| Registry.KeysOfEntries | scripts/check_registry_append_only.py:44-45 | The keys of the dictionary are exactly the keys of the entries |
| Registry.LastEntryWins | scripts/check_registry_append_only.py:44-45 | The dictionary maps a key to the last entry that has it |
| Registry.ReportsExactly | scripts/check_registry_append_only.py:47-69 | A violation is among the reports if and only if it holds of the two dictionaries |
| Registry.AcceptedExactly | scripts/check_registry_append_only.py:42-69 | Nothing is reported if and only if both registries load and every old code keeps its guarantee |
| Registry.StepsCompose | scripts/check_registry_append_only.py:42-67 | Two accepted steps compose to an accepted one if and only if no code that was ACTIVE first and not ACTIVE in the middle changes a frozen attribute in the second step |
| Registry.ChainExactly | scripts/check_registry_append_only.py:42-94 | A chain of registries is accepted step by step exactly when all load and their dictionaries are steps |
| Registry.ChainKeeps | scripts/check_registry_append_only.py:43-66 | Along a chain no code is lost, RETIRED is final, a later DEPRECATED code has an alias, and a code ACTIVE from i up to j - 1 has the same frozen attributes in i and j |
| Registry.ChainEndToEnd | scripts/check_registry_append_only.py:43-66 | A history is accepted from end to end exactly when every code ACTIVE first has in the last registry the frozen attributes it had in the second |
| Registry.ReactivationChangesFrozen | scripts/check_registry_append_only.py:53-62 | Three registries, each step accepted, in which a code returns to ACTIVE with another domain |
| Registry.RetiredCodeRedefined | scripts/check_registry_append_only.py:53-64 | An accepted step that gives a RETIRED code another domain, which rule 2 of the docstring forbids |
| Registry.ProtectedExactly | scripts/check_registry_append_only.py:53-64 | Every accepted next registry keeps a frozen attribute of a code if and only if the code is ACTIVE now or the attribute is part of the key |
| Registry.Redefined | scripts/check_registry_append_only.py:53-64 | Otherwise an accepted next registry with the attribute changed |
| Reports.LoadsExactly | scripts/check_registry_append_only.py:44-45 | A document loads exactly when it has its list and every entry has its key attributes, `reason_code` or `name` and `major`, none of them a list or dictionary |
| Reports.RaisesExactly | scripts/check_registry_append_only.py:44-45 | Otherwise what is raised: KeyError for the missing list, or for the first entry in order that is not keyed KeyError of its first missing attribute, else TypeError |
| Reports.CheckRaises | scripts/check_registry_append_only.py:44-45 | The check raises what loading the old document raises, or, when it loads, what loading the new one raises |
| Reports.Dictionary | scripts/check_registry_append_only.py:44-45 | A key is in the dictionary exactly when an entry carries it, and stands for the last entry that does |
| Reports.ReportedExactly | scripts/check_registry_append_only.py:47-69 | For both checks, stated on the entries with the attribute names written out: a report is made if and only if the old and new entries have that fault, an absent attribute counting as None and an empty alias as none |
| Reports.AcceptedMeans | scripts/check_registry_append_only.py:42-94 | A step is accepted if and only if every entry of both documents is keyed and no fault holds |
| Reports.ReportedInOrder | scripts/check_registry_append_only.py:47-69 | Reports come in the order in which their keys first occur among the old entries, those of one key by frozen attribute, then un-retirement, then missing alias, and none twice |
| Format.VarintWritten | contracts/gen/csharp/Errors.cs:657-705 | A number is written in base 128, lowest group first, as the shortest group of bytes of which only the last is below 128 |
| Format.VarintRead | contracts/gen/csharp/Errors.cs:847-862 | Reading gives v in k bytes if and only if the first k bytes are one such group and v is the sum of (b[i] mod 128) * 128^i |
| Format.RecordWritten | contracts/gen/csharp/Errors.cs:657-705 | A record is the varint of 8 * number + wire type (0, 1, 2 or 5) and its payload, length-prefixed for type 2 |
| Format.TagRead | contracts/gen/csharp/Errors.cs:850-855 | A tag is read if and only if a group of at most ten bytes stands there whose value modulo 2^32 is at least 8 |
| Format.PayloadRead | contracts/gen/csharp/Errors.cs:853-858 | For each wire type exactly which bytes are a payload, and its value; 3, 4, 6 and 7 have none |
| Format.RecordRead | contracts/gen/csharp/Errors.cs:850-860 | A record is read if and only if the bytes are a tag and a payload of its type |
| Format.NumberWritten | contracts/gen/csharp/Errors.cs:657-705 | A number v is written as the word w with 0 <= w < 2^64 congruent to v modulo 2^64: negative int64 and enum values in two's complement |
| Format.NumberTaken | contracts/gen/csharp/Errors.cs:862-912 | From a word w a field takes v if and only if v is in its range and congruent to w modulo 2^64, or 2^32 for uint32 and enums; a bool takes whether w is not 0 |
| Format.PackedExactly | contracts/gen/csharp/Candidate.cs:1609-1612 | A packed payload is accepted if and only if it is a sequence of varints; a truncated one is refused |
| Format.PackedRead | contracts/gen/csharp/Candidate.cs:1609-1612 | It gives the numbers of its varints, in order |
| Format.PackedWritten | contracts/gen/csharp/Candidate.cs:1505-1505 | A list is packed as the shortest varint of each number, in order |
| Fields.EmptyWritesNothing | contracts/gen/csharp/Candidate.cs:1488-1510 | A new object writes no byte, for every cell list |
| Fields.WroteBlob | contracts/gen/csharp/Errors.cs:661-664 | Read back from the bytes written: one length-delimited record of a string or bytes field that is not empty, none of an empty one |
| Fields.WroteNumber | contracts/gen/csharp/Errors.cs:665-668 | One varint record of a number that is not zero, none of zero |
| Fields.WroteOptional | contracts/gen/csharp/Dns.cs:906-909 | One varint record of a field that is present, its default included, none of an absent one |
| Fields.WroteSub | contracts/gen/csharp/Errors.cs:1837-1840 | One record of the bytes of the sub-message held, none of null |
| Fields.WroteStrings | contracts/gen/csharp/Errors.cs:1864-1864 | One record for each string, in order, empty ones included |
| Fields.WrotePacked | contracts/gen/csharp/Candidate.cs:1505-1505 | None of an empty packed list, otherwise exactly one length-delimited record of the shortest varint of each number, and no unpacked element |
| Fields.WroteMessages | contracts/gen/csharp/Errors.cs:1845-1845 | One record for each element, its own bytes, in order |
| Fields.WroteMember | contracts/gen/csharp/Errors.cs:669-701 | Of a oneof only the member held, zero and empty included |
| Fields.WroteUnknown | contracts/gen/csharp/Errors.cs:702-704 | Under any other number and type the records of the unknown set |
| Fields.ParsedBlob | contracts/gen/csharp/Errors.cs:862-865 | A length-delimited record replaces the field |
| Fields.ParsedNumber | contracts/gen/csharp/Errors.cs:866-869 | A varint record replaces the field by the number its word stands for, an explicit zero too |
| Fields.ParsedOptional | contracts/gen/csharp/Dns.cs:1119-1122 | The same makes a field with explicit presence present |
| Fields.ParsedSub | contracts/gen/csharp/Errors.cs:2011-2017 | A record is parsed into the sub-message held, or a new one, and refused when that refuses it |
| Fields.ParsedString | contracts/gen/csharp/Errors.cs:2042-2045 | A record of a repeated string is appended |
| Fields.ParsedElement | contracts/gen/csharp/Candidate.cs:1609-1612 | An unpacked element is appended |
| Fields.ParsedPacked | contracts/gen/csharp/Candidate.cs:1609-1612 | A packed record appends the numbers of its varints and is refused when it is not a sequence of varints |
| Fields.ParsedMessage | contracts/gen/csharp/Errors.cs:2022-2025 | A record of a repeated message is parsed on its own and appended |
| Fields.ParsedMemberBlob | contracts/gen/csharp/Errors.cs:870-873 | A string member of a oneof replaces the member held |
| Fields.ParsedMemberNumber | contracts/gen/csharp/Errors.cs:874-885 | A number member of a oneof replaces the member held |
| Fields.ParsedMemberMessage | contracts/gen/csharp/Errors.cs:886-901 | A message member is parsed into a copy of the member held if it is the same member, otherwise into a new one, and replaces the member held |
| Fields.ParsedUnknown | contracts/gen/csharp/Errors.cs:858-861 | A record under no case label changes no field and goes to the unknown set after those of its number |
| Laws.WrittenByNumber | contracts/gen/csharp/Errors.cs:1825-1867 | For the twenty modelled messages the records of the bytes are those of the fields by rising number, then the unknown ones by rising number |
| CaseLabels.DeviceLabels | contracts/gen/csharp/Device.cs:1044-1136 | For each of the fifteen case labels which field it moves to which value; every other tag keeps all fields |
| CaseLabels.DeviceIdentityLabels | contracts/gen/csharp/Identity.cs:889-953 | The same for its eleven labels |
| CaseLabels.PlatformInfoLabels | contracts/gen/csharp/Device.cs:369-402 | The same for its four labels |
| CaseLabels.SignedStatementLabels | contracts/gen/csharp/Identity.cs:334-359 | The same for its two labels |
| CaseLabels.ProtocolVersionLabels | contracts/gen/csharp/Common.cs:297-322 | The same for its two labels |
| CaseLabels.PreconditionLabels | contracts/gen/csharp/Common.cs:3861-3886 | Each of the two labels replaces the member held; every other tag keeps it |
| Hashing.NewHash | contracts/gen/csharp/Errors.cs:630-632 | A new object hashes to 1, xor the hash of an empty list for each of its lists |
| Hashing.ScalarAdds | contracts/gen/csharp/Errors.cs:630-636 | For all hash functions: a field that is not at its default xors in the hash of its value |
| Hashing.OptionalAdds | contracts/gen/csharp/Dns.cs:864-865 | A present field xors in the hash of its value, its default included |
| Hashing.SubAdds | contracts/gen/csharp/Errors.cs:1803-1803 | A sub-message xors in its own hash |
| Hashing.ListAdds | contracts/gen/csharp/Errors.cs:1810-1810 | A repeated string or number xors in the list hash of its elements' hashes |
| Hashing.MessagesAdd | contracts/gen/csharp/Errors.cs:1805-1805 | A repeated message xors in the list hash of its elements' own hashes |
| Hashing.MemberAdds | contracts/gen/csharp/Errors.cs:634-642 | A oneof xors in the hash of the member held and of its case |
| Hashing.UnknownAdds | contracts/gen/csharp/Errors.cs:643-645 | A non-empty unknown set xors in its hash |
| Equality.EqualsIsEquality | contracts/gen/csharp/Errors.cs:607-626 | Without explicit presence `Equals` holds if and only if every field, every element at every depth and the unknown set are the same |
| Laws.EqualsExactly | contracts/gen/csharp/Errors.cs:607-626 | So for every modelled message but DNSPolicy |
| Laws.PolicyEquals | contracts/gen/csharp/Dns.cs:832-854 | For DNSPolicy `Equals` holds if and only if the unknown sets and ten fields are the same and each of the four flags is true in both or in neither |
| Refinement.ParseWriteIsMerge | contracts/gen/csharp/Errors.cs:1825-2049 | For every message class of this shape: parsing what one object writes into another is `MergeFrom` |
| Refinement.FieldParseWriteIsMerge | contracts/gen/csharp/Errors.cs:657-915 | The same for one field of any kind: scalar, presence bit, sub-message, list, packed list, oneof |
| Refinement.ParseOfWrite | contracts/gen/csharp/Capability.cs:1303-1421 | Parsing the bytes of a message into a new object gives the message back |
| Refinement.WriteInjective | contracts/gen/csharp/Capability.cs:1303-1323 | Two messages have the same bytes if and only if they are the same |
| Refinement.DecodeStable | contracts/gen/csharp/Capability.cs:289-430 | Decoding, encoding and decoding again is decoding |
| Refinement.RunBytesConcat | contracts/gen/csharp/Errors.cs:1989-2049 | Parsing a concatenation is parsing the first part and then the second |
| Refinement.ParseOfConcatIsFold | contracts/gen/csharp/Capability.cs:289-430 | Written messages in a row parse to the left fold of `MergeFrom` |
| Refinement.PackRoundTrip | contracts/gen/csharp/Candidate.cs:1488-1510 | Unpacking a packed list gives the list |
| Refinement.ScalarRoundTrip | contracts/gen/csharp/Errors.cs:657-705 | Every scalar kind survives the 64-bit varint, negative enum and int64 values included |
| Merging.MergeLeftIdentity | contracts/gen/csharp/Common.cs:1959-1976 | Merging a message into a new object gives that message, at every depth |
| Merging.MergeRightIdentity | contracts/gen/csharp/Errors.cs:1951-1985 | Merging a new object changes nothing |
| Merging.CoversIsAbsorption | contracts/gen/csharp/Errors.cs:799-843 | Merging b into a gives b if and only if b overrides everything a holds |
| Merging.MergeAssociative | contracts/gen/csharp/Errors.cs:799-843 | `MergeFrom` is associative on (a, b, c) if and only if no oneof, at any depth, leaves and re-enters a message member whose content is not overridden |
| Merging.PlainMonoid | contracts/gen/csharp/Errors.cs:1951-1985 | A class tree without message members in a oneof is a monoid under `MergeFrom` |
| Sizes.SizeIsLength | contracts/gen/csharp/Errors.cs:759-795 | The predicted size is the length of the bytes, through every nested length prefix and ten-byte varint |
| Ordering.RunByField | contracts/gen/csharp/Common.cs:3473-3537 | The parse loop decodes field by field: each field sees only its own records, in order |
| Ordering.FieldOrderIrrelevant | contracts/gen/csharp/Common.cs:3473-3537 | Without oneofs only the order among records of one number matters |
| Ordering.AnyCutDecodes | contracts/gen/csharp/Candidate.cs:1579-1617 | Chunks and single elements of a repeated number decode to their concatenation |
| Ordering.AnyEncodingParses | contracts/gen/csharp/Candidate.cs:1579-1617 | Any record order and any cutting of packed lists that encodes a message parses to the same merge |
| Ordering.SplitPayload | contracts/gen/csharp/Common.cs:1945-1980 | A sub-message payload may be cut into two records at a record boundary |
| Equality.EqualsIsForget | contracts/gen/csharp/Errors.cs:607-626 | `Equals` holds if and only if the messages agree once the presence of default values is forgotten |
| Equality.EqualsEquivalence | contracts/gen/csharp/Errors.cs:607-626 | `Equals` is reflexive, symmetric and transitive |
| Equality.EqualHashes | contracts/gen/csharp/Errors.cs:630-647 | Equal messages have equal hashes when defaults of presence fields hash to zero |
| Equality.EqualHashesExactly | contracts/gen/csharp/Dns.cs:832-878 | That condition, at every depth, is necessary as well as sufficient, provided a list hash tells one-element lists apart where list elements carry presence fields |
| Equality.UnequalHashes | contracts/gen/csharp/Dns.cs:832-878 | Where the condition fails, two equal messages with different hashes, at any depth |
| Codec.Merge | contracts/gen/csharp/Errors.cs:1951-1985 | Merging keeps every field in range and the unknown set free of handled tags, at every depth |
| Codec.RunBytes | contracts/gen/csharp/Errors.cs:1989-2049 | The parse loop ends on every finite input with a rejection or a message that keeps the same invariants |
| Wire.GetRec | contracts/gen/csharp/Errors.cs:851-860 | Each pass of the loop consumes at least one byte and never more than there are |
| Wire.GetLen | contracts/gen/csharp/Errors.cs:1999-2010 | A length-delimited read stays inside what is left |
| Wire.RecordsRoundTrip | contracts/gen/csharp/Errors.cs:847-862 | A written sequence of records reads back as itself |
| Wire.RecordsConcat | contracts/gen/csharp/Errors.cs:847-862 | Reading a concatenation is reading the parts, once the first part reads |
| Unknown.UnionAssociative | contracts/gen/csharp/Errors.cs:842-842 | Merging unknown fields is associative |
| Unknown.OnlyUnion | contracts/gen/csharp/Errors.cs:842-842 | Merging unknown fields appends, for each field number, the records of that number |
| Written.StringSetWritten | contracts/gen/csharp/Capability.cs:571-580 | Read back from the bytes WriteTo appends: for each field, by name and number, exactly the records with its tag |
| Written.CapabilityParameterWritten | contracts/gen/csharp/Capability.cs:289-313 | Read back from the bytes WriteTo appends: for each field, by name and number, exactly the records with its tag |
| Written.CapabilityWritten | contracts/gen/csharp/Capability.cs:803-820 | Read back from the bytes WriteTo appends: for each field, by name and number, exactly the records with its tag |
| Written.CapabilitySetWritten | contracts/gen/csharp/Capability.cs:1056-1065 | Read back from the bytes WriteTo appends: for each field, by name and number, exactly the records with its tag |
| Written.NegotiationResultWritten | contracts/gen/csharp/Capability.cs:1303-1323 | Read back from the bytes WriteTo appends: for each field, by name and number, exactly the records with its tag |
| Written.IPv4AddressWritten | contracts/gen/csharp/Common.cs:1371-1383 | Read back from the bytes WriteTo appends: for each field, by name and number, exactly the records with its tag |
| Written.IPv6AddressWritten | contracts/gen/csharp/Common.cs:1598-1614 | Read back from the bytes WriteTo appends: for each field, by name and number, exactly the records with its tag |
| Written.IPAddressWritten | contracts/gen/csharp/Common.cs:1867-1883 | Read back from the bytes WriteTo appends: for each field, by name and number, exactly the records with its tag |
| Written.IPPrefixWritten | contracts/gen/csharp/Common.cs:2140-2156 | Read back from the bytes WriteTo appends: for each field, by name and number, exactly the records with its tag |
| Written.AuthWritten | contracts/gen/csharp/Common.cs:2737-2769 | Read back from the bytes WriteTo appends: for each field, by name and number, exactly the records with its tag |
| Written.MessageMetadataWritten | contracts/gen/csharp/Common.cs:3275-3327 | Read back from the bytes WriteTo appends: for each field, by name and number, exactly the records with its tag |
| Written.EvidenceWritten | contracts/gen/csharp/Errors.cs:657-705 | Read back from the bytes WriteTo appends: for each field, by name and number, exactly the records with its tag |
| Written.EvidenceNumbersWritten | contracts/gen/csharp/Errors.cs:657-705 | The same for its five number members, negative values in two's complement |
| Written.ResolvedAttributesWritten | contracts/gen/csharp/Errors.cs:1247-1291 | Read back from the bytes WriteTo appends: for each field, by name and number, exactly the records with its tag |
| Written.ErrorEnvelopeWritten | contracts/gen/csharp/Errors.cs:1825-1867 | Read back from the bytes WriteTo appends: for each field, by name and number, exactly the records with its tag |
| Written.SplitDomainRuleWritten | contracts/gen/csharp/Dns.cs:318-338 | Read back from the bytes WriteTo appends: for each field, by name and number, exactly the records with its tag |
| Written.DNSPolicyWritten | contracts/gen/csharp/Dns.cs:888-940 | Read back from the bytes WriteTo appends: for each field, by name and number, exactly the records with its tag |
| Written.DNSPolicyFlagsWritten | contracts/gen/csharp/Dns.cs:888-940 | The same for the four flags: none when its bit, 1, 2, 4 or 8, is clear, and otherwise 0 or 1 |
| Written.CandidatePairWritten | contracts/gen/csharp/Candidate.cs:1771-1787 | Read back from the bytes WriteTo appends: for each field, by name and number, exactly the records with its tag |
| Written.PunchSyncWritten | contracts/gen/csharp/Candidate.cs:1488-1510 | Read back from the bytes WriteTo appends: for each field, by name and number, exactly the records with its tag |
| Presence.BitsIndependent | contracts/gen/csharp/Dns.cs:625-668 | Setting or clearing one bit of the shared word decides that bit and keeps the other three |
| Presence.MergeView | contracts/gen/csharp/Dns.cs:1055-1071 | Merging presence fields takes the other object's field where it is present and keeps one's own elsewhere |
| Presence.ReparsedView | contracts/gen/csharp/Dns.cs:625-668 | Calling the setters of the present fields on a new word shows the same four fields |
| Presence.FieldsIndependent | contracts/gen/csharp/Dns.cs:613-778 | Over every run of set, clear, copy, merge and set-again steps on the word and the stored values each field behaves as an optional bool of its own |
| Presence.StaleValuesUnseen | contracts/gen/csharp/Dns.cs:613-778 | Words that show the same field now show the same after every such run, whatever Clear left stored |
| Capability.StringSet.Clone | contracts/gen/csharp/Capability.cs:511-514 | The copy has the same value; its list is a new object |
| Capability.StringSet.WriteTo | contracts/gen/csharp/Capability.cs:571-580 | Appends exactly the bytes of the object's value |
| Capability.StringSet.CalculateSize | contracts/gen/csharp/Capability.cs:595-602 | Returns the number of bytes WriteTo appends |
| Capability.StringSet.MergeFrom | contracts/gen/csharp/Capability.cs:606-612 | Leaves the merge of the two values, also when the objects share parts |
| Capability.StringSet.MergeFromStream | contracts/gen/csharp/Capability.cs:616-637 | The loop ends; it refuses, or leaves the value the parse specification gives and reads to the limit |
| Capability.StringSet.ReadField | contracts/gen/csharp/Capability.cs:616-637 | The switch refuses or takes one record, moving exactly the field its label names |
| Capability.CapabilityParameter.Clone | contracts/gen/csharp/Capability.cs:125-138 | The copy has the same value; the set it holds and that set's list are new objects |
| Capability.CapabilityParameter.WriteTo | contracts/gen/csharp/Capability.cs:289-313 | Appends exactly the bytes of the object's value |
| Capability.CapabilityParameter.CalculateSize | contracts/gen/csharp/Capability.cs:343-361 | Returns the number of bytes WriteTo appends |
| Capability.CapabilityParameter.MergeFrom | contracts/gen/csharp/Capability.cs:365-388 | Leaves the merge of the two values, also when the objects share parts |
| Capability.CapabilityParameter.MergeFromStream | contracts/gen/csharp/Capability.cs:392-430 | The loop ends; it refuses, or leaves the value the parse specification gives and reads to the limit |
| Capability.CapabilityParameter.ReadField | contracts/gen/csharp/Capability.cs:392-430 | The switch refuses or takes one record, moving exactly the field its label names |
| Capability.Capability.Clone | contracts/gen/csharp/Capability.cs:710-715 | The copy has the same value; its list, every parameter in it and everything below them are new objects |
| Capability.Capability.WriteTo | contracts/gen/csharp/Capability.cs:803-820 | Appends exactly the bytes of the object's value |
| Capability.Capability.CalculateSize | contracts/gen/csharp/Capability.cs:843-856 | Returns the number of bytes WriteTo appends |
| Capability.Capability.MergeFrom | contracts/gen/csharp/Capability.cs:860-872 | Leaves the merge of the two values, also when the objects share parts |
| Capability.Capability.MergeFromStream | contracts/gen/csharp/Capability.cs:876-905 | The loop ends; it refuses, or leaves the value the parse specification gives and reads to the limit |
| Capability.Capability.ReadField | contracts/gen/csharp/Capability.cs:876-905 | The switch refuses or takes one record, moving exactly the field its label names |
| Capability.CapabilitySet.Clone | contracts/gen/csharp/Capability.cs:989-992 | The copy has the same value; its list, every capability in it and everything below them are new objects |
| Capability.CapabilitySet.WriteTo | contracts/gen/csharp/Capability.cs:1056-1065 | Appends exactly the bytes of the object's value |
| Capability.CapabilitySet.CalculateSize | contracts/gen/csharp/Capability.cs:1080-1087 | Returns the number of bytes WriteTo appends |
| Capability.CapabilitySet.MergeFrom | contracts/gen/csharp/Capability.cs:1091-1097 | Leaves the merge of the two values, also when the objects share parts |
| Capability.CapabilitySet.MergeFromStream | contracts/gen/csharp/Capability.cs:1101-1122 | The loop ends; it refuses, or leaves the value the parse specification gives and reads to the limit |
| Capability.CapabilitySet.ReadField | contracts/gen/csharp/Capability.cs:1101-1122 | The switch refuses or takes one record, moving exactly the field its label names |
| Capability.NegotiationResult.Clone | contracts/gen/csharp/Capability.cs:1191-1196 | The copy has the same value; the set, its list and everything below, at every depth, are new objects |
| Capability.NegotiationResult.WriteTo | contracts/gen/csharp/Capability.cs:1303-1323 | Appends exactly the bytes of the object's value |
| Capability.NegotiationResult.CalculateSize | contracts/gen/csharp/Capability.cs:1349-1364 | Returns the number of bytes WriteTo appends |
| Capability.NegotiationResult.MergeFrom | contracts/gen/csharp/Capability.cs:1368-1385 | Leaves the merge of the two values, also when the objects share parts |
| Capability.NegotiationResult.MergeFromStream | contracts/gen/csharp/Capability.cs:1389-1421 | The loop ends; it refuses, or leaves the value the parse specification gives and reads to the limit |
| Capability.NegotiationResult.ReadField | contracts/gen/csharp/Capability.cs:1389-1421 | The switch refuses or takes one record, moving exactly the field its label names |
| Common.IPv4Address.Clone | contracts/gen/csharp/Common.cs:1310-1313 | The copy has the same value |
| Common.IPv4Address.WriteTo | contracts/gen/csharp/Common.cs:1371-1383 | Appends exactly the bytes of the object's value |
| Common.IPv4Address.CalculateSize | contracts/gen/csharp/Common.cs:1401-1410 | Returns the number of bytes WriteTo appends |
| Common.IPv4Address.MergeFrom | contracts/gen/csharp/Common.cs:1414-1422 | Leaves the merge of the two values, also when the objects share parts |
| Common.IPv4Address.MergeFromStream | contracts/gen/csharp/Common.cs:1426-1447 | The loop ends; it refuses, or leaves the value the parse specification gives and reads to the limit |
| Common.IPv4Address.ReadField | contracts/gen/csharp/Common.cs:1426-1447 | The switch refuses or takes one record, moving exactly the field its label names |
| Common.IPv6Address.Clone | contracts/gen/csharp/Common.cs:1516-1520 | The copy has the same value |
| Common.IPv6Address.WriteTo | contracts/gen/csharp/Common.cs:1598-1614 | Appends exactly the bytes of the object's value |
| Common.IPv6Address.CalculateSize | contracts/gen/csharp/Common.cs:1636-1648 | Returns the number of bytes WriteTo appends |
| Common.IPv6Address.MergeFrom | contracts/gen/csharp/Common.cs:1652-1663 | Leaves the merge of the two values, also when the objects share parts |
| Common.IPv6Address.MergeFromStream | contracts/gen/csharp/Common.cs:1667-1692 | The loop ends; it refuses, or leaves the value the parse specification gives and reads to the limit |
| Common.IPv6Address.ReadField | contracts/gen/csharp/Common.cs:1667-1692 | The switch refuses or takes one record, moving exactly the field its label names |
| Common.IPAddress.Clone | contracts/gen/csharp/Common.cs:1761-1772 | The copy has the same value; the address it holds is a new object |
| Common.IPAddress.WriteTo | contracts/gen/csharp/Common.cs:1867-1883 | Appends exactly the bytes of the object's value |
| Common.IPAddress.CalculateSize | contracts/gen/csharp/Common.cs:1905-1917 | Returns the number of bytes WriteTo appends |
| Common.IPAddress.MergeFrom | contracts/gen/csharp/Common.cs:1921-1941 | Leaves the merge of the two values, also when the objects share parts |
| Common.IPAddress.MergeFromStream | contracts/gen/csharp/Common.cs:1945-1980 | The loop ends; it refuses, or leaves the value the parse specification gives and reads to the limit |
| Common.IPAddress.ReadField | contracts/gen/csharp/Common.cs:1945-1980 | The switch refuses or takes one record, moving exactly the field its label names |
| Common.IPPrefix.Clone | contracts/gen/csharp/Common.cs:2064-2068 | The copy has the same value; the address and what it holds are new objects |
| Common.IPPrefix.WriteTo | contracts/gen/csharp/Common.cs:2140-2156 | Appends exactly the bytes of the object's value |
| Common.IPPrefix.CalculateSize | contracts/gen/csharp/Common.cs:2178-2190 | Returns the number of bytes WriteTo appends |
| Common.IPPrefix.MergeFrom | contracts/gen/csharp/Common.cs:2194-2208 | Leaves the merge of the two values, also when the objects share parts |
| Common.IPPrefix.MergeFromStream | contracts/gen/csharp/Common.cs:2212-2240 | The loop ends; it refuses, or leaves the value the parse specification gives and reads to the limit |
| Common.IPPrefix.ReadField | contracts/gen/csharp/Common.cs:2212-2240 | The switch refuses or takes one record, moving exactly the field its label names |
| Common.Auth.Clone | contracts/gen/csharp/Common.cs:2578-2586 | The copy has the same value |
| Common.Auth.WriteTo | contracts/gen/csharp/Common.cs:2737-2769 | Appends exactly the bytes of the object's value |
| Common.Auth.CalculateSize | contracts/gen/csharp/Common.cs:2807-2831 | Returns the number of bytes WriteTo appends |
| Common.Auth.MergeFrom | contracts/gen/csharp/Common.cs:2835-2858 | Leaves the merge of the two values, also when the objects share parts |
| Common.Auth.MergeFromStream | contracts/gen/csharp/Common.cs:2862-2903 | The loop ends; it refuses, or leaves the value the parse specification gives and reads to the limit |
| Common.Auth.ReadField | contracts/gen/csharp/Common.cs:2862-2903 | The switch refuses or takes one record, moving exactly the field its label names |
| Common.MessageMetadata.Clone | contracts/gen/csharp/Common.cs:2991-3004 | The copy has the same value; the proof it holds is a new object |
| Common.MessageMetadata.WriteTo | contracts/gen/csharp/Common.cs:3275-3327 | Appends exactly the bytes of the object's value |
| Common.MessageMetadata.CalculateSize | contracts/gen/csharp/Common.cs:3385-3424 | Returns the number of bytes WriteTo appends |
| Common.MessageMetadata.MergeFrom | contracts/gen/csharp/Common.cs:3428-3469 | Leaves the merge of the two values, also when the objects share parts |
| Common.MessageMetadata.MergeFromStream | contracts/gen/csharp/Common.cs:3473-3537 | The loop ends; it refuses, or leaves the value the parse specification gives and reads to the limit |
| Common.MessageMetadata.ReadField | contracts/gen/csharp/Common.cs:3473-3537 | The switch refuses or takes one record, moving exactly the field its label names |
| Errors.Evidence.Clone | contracts/gen/csharp/Errors.cs:309-340 | The copy has the same value; the address or prefix it holds and everything below are new objects |
| Errors.Evidence.WriteTo | contracts/gen/csharp/Errors.cs:657-705 | Appends exactly the bytes of the object's value |
| Errors.Evidence.CalculateSize | contracts/gen/csharp/Errors.cs:759-795 | Returns the number of bytes WriteTo appends |
| Errors.Evidence.MergeFrom | contracts/gen/csharp/Errors.cs:799-843 | Leaves the merge of the two values, also when the objects share parts |
| Errors.Evidence.MergeFromStream | contracts/gen/csharp/Errors.cs:847-915 | The loop ends; it refuses, or leaves the value the parse specification gives and reads to the limit |
| Errors.Evidence.ReadField | contracts/gen/csharp/Errors.cs:847-915 | The switch refuses or takes one record, moving exactly the field its label names |
| Errors.ResolvedAttributes.Clone | contracts/gen/csharp/Errors.cs:1043-1054 | The copy has the same value |
| Errors.ResolvedAttributes.WriteTo | contracts/gen/csharp/Errors.cs:1247-1291 | Appends exactly the bytes of the object's value |
| Errors.ResolvedAttributes.CalculateSize | contracts/gen/csharp/Errors.cs:1341-1374 | Returns the number of bytes WriteTo appends |
| Errors.ResolvedAttributes.MergeFrom | contracts/gen/csharp/Errors.cs:1378-1410 | Leaves the merge of the two values, also when the objects share parts |
| Errors.ResolvedAttributes.MergeFromStream | contracts/gen/csharp/Errors.cs:1414-1467 | The loop ends; it refuses, or leaves the value the parse specification gives and reads to the limit |
| Errors.ResolvedAttributes.ReadField | contracts/gen/csharp/Errors.cs:1414-1467 | The switch refuses or takes one record, moving exactly the field its label names |
| Errors.ErrorEnvelope.Clone | contracts/gen/csharp/Errors.cs:1576-1588 | The copy has the same value; the attributes, both lists, every item of evidence and everything below, at every depth, are new objects |
| Errors.ErrorEnvelope.WriteTo | contracts/gen/csharp/Errors.cs:1825-1867 | Appends exactly the bytes of the object's value |
| Errors.ErrorEnvelope.CalculateSize | contracts/gen/csharp/Errors.cs:1915-1947 | Returns the number of bytes WriteTo appends |
| Errors.ErrorEnvelope.MergeFrom | contracts/gen/csharp/Errors.cs:1951-1985 | Leaves the merge of the two values, also when the objects share parts |
| Errors.ErrorEnvelope.MergeFromStream | contracts/gen/csharp/Errors.cs:1989-2049 | The loop ends; it refuses, or leaves the value the parse specification gives and reads to the limit |
| Errors.ErrorEnvelope.ReadField | contracts/gen/csharp/Errors.cs:1989-2049 | The switch refuses or takes one record, moving exactly the field its label names |
| Dns.SplitDomainRule.Clone | contracts/gen/csharp/Dns.cs:213-218 | The copy has the same value |
| Dns.SplitDomainRule.WriteTo | contracts/gen/csharp/Dns.cs:318-338 | Appends exactly the bytes of the object's value |
| Dns.SplitDomainRule.CalculateSize | contracts/gen/csharp/Dns.cs:364-379 | Returns the number of bytes WriteTo appends |
| Dns.SplitDomainRule.MergeFrom | contracts/gen/csharp/Dns.cs:383-397 | Leaves the merge of the two values, also when the objects share parts |
| Dns.SplitDomainRule.MergeFromStream | contracts/gen/csharp/Dns.cs:401-430 | The loop ends; it refuses, or leaves the value the parse specification gives and reads to the limit |
| Dns.SplitDomainRule.ReadField | contracts/gen/csharp/Dns.cs:401-430 | The switch refuses or takes one record, moving exactly the field its label names |
| Dns.DNSPolicy.Clone | contracts/gen/csharp/Dns.cs:509-526 | The copy has the same value; the four lists and every element are new objects; presence bits and stored values are copied |
| Dns.DNSPolicy.WriteTo | contracts/gen/csharp/Dns.cs:888-940 | Appends exactly the bytes of the object's value |
| Dns.DNSPolicy.CalculateSize | contracts/gen/csharp/Dns.cs:998-1038 | Returns the number of bytes WriteTo appends |
| Dns.DNSPolicy.MergeFrom | contracts/gen/csharp/Dns.cs:1042-1081 | Leaves the merge of the two values, also when the objects share parts |
| Dns.DNSPolicy.MergeFromStream | contracts/gen/csharp/Dns.cs:1085-1158 | The loop ends; it refuses, or leaves the value the parse specification gives and reads to the limit |
| Dns.DNSPolicy.ReadField | contracts/gen/csharp/Dns.cs:1085-1158 | The switch refuses or takes one record, moving exactly the field its label names |
| Candidate.CandidatePair.Clone | contracts/gen/csharp/Candidate.cs:1695-1699 | The copy has the same value |
| Candidate.CandidatePair.WriteTo | contracts/gen/csharp/Candidate.cs:1771-1787 | Appends exactly the bytes of the object's value |
| Candidate.CandidatePair.CalculateSize | contracts/gen/csharp/Candidate.cs:1809-1821 | Returns the number of bytes WriteTo appends |
| Candidate.CandidatePair.MergeFrom | contracts/gen/csharp/Candidate.cs:1825-1836 | Leaves the merge of the two values, also when the objects share parts |
| Candidate.CandidatePair.MergeFromStream | contracts/gen/csharp/Candidate.cs:1840-1865 | The loop ends; it refuses, or leaves the value the parse specification gives and reads to the limit |
| Candidate.CandidatePair.ReadField | contracts/gen/csharp/Candidate.cs:1840-1865 | The switch refuses or takes one record, moving exactly the field its label names |
| Candidate.PunchSync.Clone | contracts/gen/csharp/Candidate.cs:1353-1360 | The copy has the same value; both lists and every pair are new objects |
| Candidate.PunchSync.WriteTo | contracts/gen/csharp/Candidate.cs:1488-1510 | Appends exactly the bytes of the object's value |
| Candidate.PunchSync.CalculateSize | contracts/gen/csharp/Candidate.cs:1538-1555 | Returns the number of bytes WriteTo appends |
| Candidate.PunchSync.MergeFrom | contracts/gen/csharp/Candidate.cs:1559-1575 | Leaves the merge of the two values, also when the objects share parts |
| Candidate.PunchSync.MergeFromStream | contracts/gen/csharp/Candidate.cs:1579-1617 | The loop ends; it refuses, or leaves the value the parse specification gives and reads to the limit |
| Candidate.PunchSync.ReadField | contracts/gen/csharp/Candidate.cs:1579-1617 | The switch refuses or takes one record, moving exactly the field its label names |
| Capability.CapabilityParameterList.Clone | contracts/gen/csharp/Capability.cs:713-713 | A new list of a clone of each element, all fresh at every depth |
| Capability.CapabilityParameterList.WriteElements | contracts/gen/csharp/Capability.cs:815-815 | Each element writes itself behind its tag and length; together they are the records of the field |
| Capability.CapabilityParameterList.CalculateSize | contracts/gen/csharp/Capability.cs:851-851 | The elements' own sizes with tags and length prefixes add up to the size of the field |
| Capability.CapabilityParameterList.Add | contracts/gen/csharp/Capability.cs:870-870 | Appends the other list's elements |
| Capability.CapabilityParameterList.AddEntry | contracts/gen/csharp/Capability.cs:899-899 | Parses one record with a new element's own loop and appends it, or refuses |
| Capability.CapabilityList.Clone | contracts/gen/csharp/Capability.cs:990-990 | A new list of a clone of each element, all fresh at every depth |
| Capability.CapabilityList.WriteElements | contracts/gen/csharp/Capability.cs:1060-1060 | Each element writes itself behind its tag and length; together they are the records of the field |
| Capability.CapabilityList.CalculateSize | contracts/gen/csharp/Capability.cs:1082-1082 | The elements' own sizes with tags and length prefixes add up to the size of the field |
| Capability.CapabilityList.Add | contracts/gen/csharp/Capability.cs:1095-1095 | Appends the other list's elements |
| Capability.CapabilityList.AddEntry | contracts/gen/csharp/Capability.cs:1116-1116 | Parses one record with a new element's own loop and appends it, or refuses |
| Common.IPv4AddressList.Clone | contracts/gen/csharp/Dns.cs:514-514 | A new list of a clone of each element, all fresh at every depth |
| Common.IPv4AddressList.WriteElements | contracts/gen/csharp/Dns.cs:904-904 | Each element writes itself behind its tag and length; together they are the records of the field |
| Common.IPv4AddressList.CalculateSize | contracts/gen/csharp/Dns.cs:1009-1009 | The elements' own sizes with tags and length prefixes add up to the size of the field |
| Common.IPv4AddressList.Add | contracts/gen/csharp/Dns.cs:1055-1055 | Appends the other list's elements |
| Common.IPv4AddressList.AddEntry | contracts/gen/csharp/Dns.cs:1112-1112 | Parses one record with a new element's own loop and appends it, or refuses |
| Common.IPv6AddressList.Clone | contracts/gen/csharp/Dns.cs:515-515 | A new list of a clone of each element, all fresh at every depth |
| Common.IPv6AddressList.WriteElements | contracts/gen/csharp/Dns.cs:905-905 | Each element writes itself behind its tag and length; together they are the records of the field |
| Common.IPv6AddressList.CalculateSize | contracts/gen/csharp/Dns.cs:1010-1010 | The elements' own sizes with tags and length prefixes add up to the size of the field |
| Common.IPv6AddressList.Add | contracts/gen/csharp/Dns.cs:1056-1056 | Appends the other list's elements |
| Common.IPv6AddressList.AddEntry | contracts/gen/csharp/Dns.cs:1116-1116 | Parses one record with a new element's own loop and appends it, or refuses |
| Errors.EvidenceList.Clone | contracts/gen/csharp/Errors.cs:1581-1581 | A new list of a clone of each element, all fresh at every depth |
| Errors.EvidenceList.WriteElements | contracts/gen/csharp/Errors.cs:1845-1845 | Each element writes itself behind its tag and length; together they are the records of the field |
| Errors.EvidenceList.CalculateSize | contracts/gen/csharp/Errors.cs:1929-1929 | The elements' own sizes with tags and length prefixes add up to the size of the field |
| Errors.EvidenceList.Add | contracts/gen/csharp/Errors.cs:1970-1970 | Appends the other list's elements |
| Errors.EvidenceList.AddEntry | contracts/gen/csharp/Errors.cs:2023-2023 | Parses one record with a new element's own loop and appends it, or refuses |
| Dns.SplitDomainRuleList.Clone | contracts/gen/csharp/Dns.cs:518-518 | A new list of a clone of each element, all fresh at every depth |
| Dns.SplitDomainRuleList.WriteElements | contracts/gen/csharp/Dns.cs:914-914 | Each element writes itself behind its tag and length; together they are the records of the field |
| Dns.SplitDomainRuleList.CalculateSize | contracts/gen/csharp/Dns.cs:1017-1017 | The elements' own sizes with tags and length prefixes add up to the size of the field |
| Dns.SplitDomainRuleList.Add | contracts/gen/csharp/Dns.cs:1063-1063 | Appends the other list's elements |
| Dns.SplitDomainRuleList.AddEntry | contracts/gen/csharp/Dns.cs:1128-1128 | Parses one record with a new element's own loop and appends it, or refuses |
| Candidate.CandidatePairList.Clone | contracts/gen/csharp/Candidate.cs:1357-1357 | A new list of a clone of each element, all fresh at every depth |
| Candidate.CandidatePairList.WriteElements | contracts/gen/csharp/Candidate.cs:1504-1504 | Each element writes itself behind its tag and length; together they are the records of the field |
| Candidate.CandidatePairList.CalculateSize | contracts/gen/csharp/Candidate.cs:1549-1549 | The elements' own sizes with tags and length prefixes add up to the size of the field |
| Candidate.CandidatePairList.Add | contracts/gen/csharp/Candidate.cs:1572-1572 | Appends the other list's elements |
| Candidate.CandidatePairList.AddEntry | contracts/gen/csharp/Candidate.cs:1606-1606 | Parses one record with a new element's own loop and appends it, or refuses |
| Repeated.RepeatedValues.Clone | contracts/gen/csharp/Capability.cs:512-512 | A new list with the same values |
| Repeated.RepeatedValues.Add | contracts/gen/csharp/Capability.cs:610-610 | Appends the other list's values, also its own |
| Repeated.RepeatedValues.WriteStrings | contracts/gen/csharp/Capability.cs:575-575 | Appends one record for each string, in order |
| Repeated.RepeatedValues.WritePackedUInt32 | contracts/gen/csharp/Candidate.cs:1505-1505 | Appends nothing for an empty list and otherwise exactly one packed record |
| Capability.CapabilityParameter.MergeValue | contracts/gen/csharp/Capability.cs:375-385 | Merges the oneof: a scalar replaces, a message merges into the member held or a new one |
| Common.IPAddress.MergeAddress | contracts/gen/csharp/Common.cs:1925-1938 | The same for the two address families |
| Errors.Evidence.MergeValue | contracts/gen/csharp/Errors.cs:809-840 | The same for the eight-way oneof |
| Capability.CapabilityParameter.BuildSetValue | contracts/gen/csharp/Capability.cs:416-424 | The fresh sub-builder holds a copy of the member held with the record parsed into it; the member itself is untouched |
| Errors.Evidence.BuildAddressValue | contracts/gen/csharp/Errors.cs:885-893 | The same for the address member |
| Errors.Evidence.BuildPrefixValue | contracts/gen/csharp/Errors.cs:894-902 | The same for the prefix member |
| Dns.DNSPolicy.SetServersDeclaredV4 | contracts/gen/csharp/Dns.cs:625-644 | Sets the field and its bit and nothing else |
| Dns.DNSPolicy.ClearServersDeclaredV4 | contracts/gen/csharp/Dns.cs:625-644 | Clears the bit and leaves the stored value and the other bits |
| Dns.DNSPolicy.SetServersDeclaredV6 | contracts/gen/csharp/Dns.cs:652-671 | Sets the field and its bit and nothing else |
| Dns.DNSPolicy.ClearServersDeclaredV6 | contracts/gen/csharp/Dns.cs:652-671 | Clears the bit and leaves the stored value and the other bits |
| Dns.DNSPolicy.SetBlockFallbackV4 | contracts/gen/csharp/Dns.cs:733-751 | Sets the field and its bit and nothing else |
| Dns.DNSPolicy.ClearBlockFallbackV4 | contracts/gen/csharp/Dns.cs:733-751 | Clears the bit and leaves the stored value and the other bits |
| Dns.DNSPolicy.SetBlockFallbackV6 | contracts/gen/csharp/Dns.cs:760-778 | Sets the field and its bit and nothing else |
| Dns.DNSPolicy.ClearBlockFallbackV6 | contracts/gen/csharp/Dns.cs:760-778 | Clears the bit and leaves the stored value and the other bits |
| Dns.DNSPolicy.MergeFlags | contracts/gen/csharp/Dns.cs:1055-1071 | Merges the four presence fields, also with itself |
| Transfers.SendNegotiationResult | contracts/gen/csharp/Capability.cs:1303-1421 | Writing one object tree and parsing the bytes into another leaves what MergeFrom would, through the element objects of every list |
| Transfers.SendErrorEnvelope | contracts/gen/csharp/Errors.cs:1825-2049 | The same for error envelopes |
| Transfers.SendEvidence | contracts/gen/csharp/Errors.cs:657-915 | The same for evidence |
| Transfers.SendMetadata | contracts/gen/csharp/Common.cs:3275-3537 | The same for message metadata |
| Transfers.SendPunchSync | contracts/gen/csharp/Candidate.cs:1488-1617 | The same for punch synchronisation |
| Transfers.SendPolicy | contracts/gen/csharp/Dns.cs:888-1158 | The same for DNS policies, presence bits included |
| Transfers.RunPolicy | contracts/gen/csharp/Dns.cs:613-778 | Over every run of set, clear, clone, merge and write-then-parse calls on policy objects, through the bytes, each presence field behaves as an optional bool of its own |
| Transfers.RunCall | contracts/gen/csharp/Dns.cs:613-778 | One such call on a policy object does to each presence field what it does to an optional bool |
| Transfers.StaleValuesUnwritten | contracts/gen/csharp/Dns.cs:832-940 | Policies that differ only in stale stored values write the same bytes and are equal |
| Transfers.ReparsePolicy | contracts/gen/csharp/Dns.cs:888-1158 | A policy written and parsed into a new object shows the same four presence fields and the same value |
| Transfers.KeepEvidence | contracts/gen/csharp/Errors.cs:309-340 | Merging into the original leaves its clone's value as it was |
| Transfers.ForkEvidence | contracts/gen/csharp/Errors.cs:309-340 | Merging into a clone changes nothing the original reaches |
| Transfers.KeepErrorEnvelope | contracts/gen/csharp/Errors.cs:1576-1588 | Merging into the original leaves its clone as it was; the clone and everything below it is fresh |
| Transfers.ForkErrorEnvelope | contracts/gen/csharp/Errors.cs:1576-1588 | Merging into a clone changes nothing the original reaches |
| Transfers.KeepOnElementChange | contracts/gen/csharp/Capability.cs:989-992 | Changing a capability of the original in place, inside its list, leaves a clone as it was |
| Transfers.KeepOnEvidenceChange | contracts/gen/csharp/Errors.cs:1576-1588 | Changing an item of evidence of the original in place leaves a clone as it was |
| Transfers.KeepNegotiationResult | contracts/gen/csharp/Capability.cs:1191-1196 | Merging into the original leaves its clone as it was; the clone and everything below it is fresh |
| Transfers.ForkNegotiationResult | contracts/gen/csharp/Capability.cs:1191-1196 | Merging into a clone changes nothing the original reaches |

## Left out

- `InternalWriteTo` and `InternalMergeFrom`: they repeat the branches of the forms modelled.
- The runtime's repeated field is not visible: `Add(other)` is modelled as appending references to
  the other list's elements, and `AddEntriesFrom` as one element for each record.
- A list records the values its elements had when they were appended. Once a caller changes an
  element in place from outside, the list is no longer `Valid` and the contracts of its owner say
  nothing more; what they still say is that clones are unaffected.
- `Equals` and `GetHashCode` are modelled on values for every class; the hash functions of the
  runtime's own types are parameters, and a hash word is its set of one bits.
- `Device`, `DevicePlatformInfo`, `DeviceIdentity`, `SignedStatement`, `ProtocolVersion` and
  `VersionPrecondition` are modelled on values by their
  cell lists, without a class, as their methods repeat the shapes of the other classes: update in
  place and aliasing of their objects are not captured.
- Classes split `MergeFrom` and the switch of the parse loop into several methods with the same
  branches; independent fields are not always merged in field order, and oneof branches are
  `else if` where C# writes exclusive `if` statements in a row.
- `Presence.Bits` is eight bits wide where `_hasBits0` is an `int`; only its low four bits are used.
- Order among unknown fields when written: the runtime's set is not visible, so the model writes them by
  field number, in arrival order within a number, whatever order the runtime chooses.
- Limits of the runtime: message size, recursion depth, 32-bit lengths and UTF-8 validation. A
  length prefix of more than ten bytes is refused unless the length has no shorter one.
- Groups: a start-group or end-group tag is malformed input, where the runtime skips a balanced
  unknown group.
- Explicit clearing methods of oneofs, `ToString`, JSON, descriptors and reflection.
- `Connection.cs` and the remaining messages of the modelled files: the same shapes again.
- Rules that appear only in comments (canonical prefixes, IPv4-mapped rejection, list caps,
  capability selection): the code does not enforce them.
- `main` and `at_ref` of the registry script: files and subprocesses. The wording of its reports
  is left out; a report is its kind, key and attribute.
- JSON values NaN and Infinity in a registry, and registries whose list or entries are not a list
  of objects.
- The Rust crates, relay, session machine and control store are not part of this model.
