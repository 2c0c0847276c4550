# Certificate Transparency in Go: a verified model

This project models the parts of certificate-transparency-go whose correctness rests on
an argument rather than on one function body, and proves what they promise.

| files | what they model |
|---|---|
| `Bytes.dfy`, `Sets.dfy` | octets, big-endian numbers, results and options; counting in finite sets |
| `TlsSchema.dfy`, `TlsMethods.dfy`, `TlsTheorems.dfy`, `TlsReadings.dfy`, `TlsDepartures.dfy` | the TLS presentation-language codec of `tls/tls.go` (section 4 of RFC 5246) |
| `CtStructures.dfy`, `CtSerialization.dfy` | the structures of section 3 of RFC 6962 as schemas of that codec, and the inputs of signatures and leaf hashes built from them |
| `DerInteger.dfy`, `DerTagLength.dfy`, `DerOid.dfy`, `DerBitString.dfy`, `DerEncoders.dfy` | DER primitives of `asn1/` (ITU-T X.690) and the encoder trees that fill one allocated buffer |
| `SubmissionState.dfy`, `SubmissionLedger.dfy`, `SubmissionBounds.dfy`, `SubmissionRace.dfy`, `SubmissionTheorems.dfy`, `SubmissionFailure.dfy`, `SubmissionExactness.dfy`, `SubmissionSharedLog.dfy`, `SubmissionFalseFailure.dfy` | the race for SCTs of `submission/races.go` |
| `LogPolicy.dfy` | groups of logs, their weights and the Chrome policy of `ctpolicy/` |
| `Fetcher.dfy`, `FetcherRuns.dfy` | the concurrent log fetcher of `scanner/fetcher.go` |
| `ChainFixer.dfy` | the choice of prefix-minimal chains of `fixchain/fixer.go` |
| `Slices.dfy`, `CertPool.dfy` | the indexed certificate pools of `x509/cert_pool.go`, with the slices they are stored in |
| `TemporalLog.dfy` | the shards of temporal logs of `client/multilog.go` |

**How the models are built.** Code that computes a value is a function. Code that works
by changing things is a method or a class, with the loops of the source, and is proved
equal to a function or to a property of its inputs; the theorems are about that function.
Go maps are walked in an arbitrary order, and the proofs hold for each. Goroutines are
transition systems: every locked operation, channel hand-over and answer from outside is
one step, `Enabled` says when it can happen, `Next` what it does, and a theorem over
`Reachable` or `Runs` holds of every interleaving, of every way the outside answers and of
every number of goroutines.

**The codec.** `ParseField` takes the buffer that was handed to the parser as an option.
`None` is the reading RFC 5246 gives a schema. `Some(data)` is the code as written, which
takes a `Uint24` from the front of `data` instead of from the current position.
On every schema and input the two fail alike and leave the same octets, and they read the
same value exactly if each Uint24 in it is the number in the first three octets of its
buffer, where a vector is a buffer of its own (`TlsReadings.ReadingsAgreeIff`). So the code
reads a value back if and only if it is readable and has that property
(`TlsReadings.CodeReadsBackIff`). All values of a schema have it if its only Uint24 stands
at the front (`FrontOnly`); a struct with one Uint24 is read back in all its records exactly
if no field before the Uint24 takes room (`TlsDepartures.Uint24IsReadBackIff`).

**The submission race.** The steps of `SubmissionRace` call the functions of
`SubmissionState` that the methods of the class `SafeSubmissionState` are proved equal to.
A `Ledger` is the shared state together with a history that no step reads: who was told to
go ahead, what the logs answered, which cancel functions were called. The invariant `Safe`
is kept by every step, and `Sound` is its part about the books.

**Where the code does not do what one would expect.** Each of these is a theorem, not
an assumption, together with the condition under which the expectation does hold.

* An error from GetSCTs does not mean that the SCTs returned fall short of the policy. While
  the context is alive and the sessions are those the policies draw, it does in all runs if and
  only if no two groups that want SCTs overlap (`SubmissionFalseFailure.ReportsAreExactIff`).
  The groups of the Chrome policy always do (`SubmissionFalseFailure.ChromeFailsFalsely`). In
  every case a race gives up only after each of its logs was asked
  (`SubmissionFailure.FailureMeansExhausted`).
* The fetcher delivers each index once if and only if the log never answers with more
  entries than asked (`FetcherRuns.DeliveryIsExactlyOnce`). A start index beyond the end of
  the tree is ignored in continuous mode (`FetcherRuns.StartIsHonouredIff`).
* Base-128 numbers with a leading 0x80 octet are accepted, so high tags and object
  identifiers have more than one encoding; the others are canonical
  (`DerTagLength.TagAndLengthIsCanonical`, `DerOid.OidIsCanonical`).
* A Uint24 behind a field that takes room is misread (`TlsDepartures.MisplacedUint24IsMisread`).
  Enumerations and vectors whose size takes eight octets can neither be read nor written
  (`TlsDepartures.EightOctetSizesAreUnusable`). A vector whose elements take no octets is
  written as an empty one (`TlsDepartures.EmptyElementsVanish`).
* A certificate that is Equal to a pooled one is not found if its subject differs, which
  parsed certificates rule out (`CertPool.NameIndexIsEnough`, `CertPool.OtherNameIsNotFound`).

## Model

| member | source | states |
|---|---|---|
| `TlsSchema.ByteCount` | tls/tls.go:169-188 | the octet count is the least that holds the number, between 1 and 8 |
| `TlsMethods.FieldTagToFieldInfo` | tls/tls.go:208-274 | the loop over the clauses of a field tag yields the sizes, range, selector and errors that folding the clauses gives |
| `TlsMethods.ReadSized` | tls/tls.go:294-309 | the shifting loop over a 64-bit word reads the big-endian number of the prefix, and fails on missing sizes, short input and values out of range |
| `TlsMethods.ParseValue` | tls/tls.go:314-502 | the offset-based parser yields the value, the end offset or the error of the specification `ParseField` for every type, buffer and starting offset |
| `TlsMethods.ParseStruct` | tls/tls.go:370-447 | the loop over the fields, with its maps of enumerations and seen selectors, yields what the specification gives, including which variant is taken and the errors for unknown, duplicate and unhandled selectors |
| `TlsMethods.ParseMember` | tls/tls.go:388-437 | one field: skipped, chosen or plain, and what it adds to the scope |
| `TlsMethods.ParseSlice` | tls/tls.go:463-497 | length prefix, range check and elements of a vector, ending at the offset the specification gives |
| `TlsMethods.ParseVector` | tls/tls.go:489-496 | the element loop yields all elements of the block, or the first error |
| `TlsMethods.MarshalValue` | tls/tls.go:525-711 | the encoder writes the octets or returns the error of the specification `MarshalField` |
| `TlsMethods.MarshalStruct` | tls/tls.go:576-647 | the loop over fields with selectors writes what the specification gives |
| `TlsMethods.MarshalMember` | tls/tls.go:585-639 | one field: a nil pointer for a variant not chosen, the value behind the pointer for the chosen one |
| `TlsMethods.MarshalVector` | tls/tls.go:689-696 | the element loop concatenates the elements |
| `TlsTheorems.DecodingIsCanonical` | tls/tls.go:314-502 | whatever parses can be written, in as many octets as were read; the octets are the very ones read always without Uint24, from the front of the buffer with one at the front, and in general if and only if the code read them as RFC 5246 does |
| `TlsTheorems.SameAtFront` | tls/tls.go:335-341 | a schema whose only Uint24 stands at the front is read from the front of any buffer as RFC 5246 reads it |
| `TlsTheorems.EncodingRoundTrips` | tls/tls.go:525-711 | what is written reads back as the same value and leaves the tail if and only if the value is one a parser can yield: by the reading of RFC 5246 for every schema, and by the code for those with a Uint24 at most at the front |
| `TlsTheorems.UnmarshalInvertsMarshal` | tls/tls.go:146-166 | Unmarshal of Marshal followed by anything is the value and that tail exactly for readable values, for schemas with a Uint24 at most at the front |
| `TlsTheorems.EncodingIsPrefixFree` | tls/tls.go:525-711 | no encoding is a proper prefix of another of the same schema, and encodings of different values differ |
| `TlsTheorems.ParseThenMarshal` | tls/tls.go:314-502 | by induction over schemas: a parsed value is readable and re-encodes to the octets consumed |
| `TlsTheorems.MarshalThenParse` | tls/tls.go:525-711 | by induction over schemas: parsing the encoding and any tail as RFC 5246 does returns the value and the tail, through nested vectors and variants |
| `TlsTheorems.SameWithoutUint24` | tls/tls.go:335-341 | without Uint24 the code reads every input as RFC 5246 does |
| `TlsReadings.ReadingsAgreeIff` | tls/tls.go:314-502 | at any depth of any schema and on every input the code fails where RFC 5246 has it fail, with the same error, and leaves the same octets; it reads what stands there if and only if each Uint24 of it is the number in the first three octets of its buffer |
| `TlsReadings.CodeReadsBackIff` | tls/tls.go:314-502 | an encodable value of any schema, followed by any octets, is read back by the code if and only if it is readable and each Uint24 of it is the number in the first three octets of its buffer |
| `TlsDepartures.MisplacedUint24IsMisread` | tls/tls.go:335-341 | a Uint24 behind a field that takes room: next to every readable record there is one, different in that Uint24 only, that the code does not read back |
| `TlsDepartures.Uint24IsReadBackIff` | tls/tls.go:335-341 | a struct with one Uint24 and any readable record is read back in all of them if and only if no field before the Uint24 takes room |
| `TlsDepartures.Uint24VectorIsReadBackIff` | tls/tls.go:463-497 | a vector of Uint24 is read back by the code if and only if all its elements are the same |
| `TlsDepartures.Uint24VectorsAreReadBackIff` | tls/tls.go:463-497 | all vectors of Uint24 of a field are read back by the code if and only if its range admits none with two elements |
| `TlsDepartures.OctetThenUint24` | tls/tls.go:335-341 | an octet and then a Uint24, for all inputs: the value read, the value that stands there, and that they agree exactly if all four octets are the same |
| `TlsDepartures.EightOctetSizesAreUnusable` | tls/tls.go:277-290 | a size of eight octets or more makes reading from any buffer and writing fail on every input |
| `TlsDepartures.SizesAreUsableIff` | tls/tls.go:277-309 | an enumeration or byte vector can be written, and can be read, at all if and only if its size is below eight octets and its range leaves a number of that size |
| `TlsDepartures.EmptyElementsVanish` | tls/tls.go:489-496 | elements that take no octets leave no trace in the encoding, whatever their number |
| `CtStructures.SizedIsReadable` | types.go:120-376 | every value of a schema with sized fields that can be written can be read back |
| `CtStructures.RegularRoundTrip` | tls/tls.go:146-166 | for the schemas of RFC 6962, Unmarshal inverts Marshal with nothing left |
| `CtStructures.RegularInjective` | tls/tls.go:525-711 | for these schemas, equal encodings mean equal values |
| `CtStructures.RegularCanonical` | tls/tls.go:314-502 | for these schemas, octets that parse without a rest are the encoding of what they parse to |
| `CtStructures.LeafIsRegular` | types.go:361-376 | the Merkle tree leaf is such a schema, with its timestamped entry and three variants |
| `CtStructures.CertificateTimestampIsRegular` | types.go:341-350 | so is the signed part of an SCT |
| `CtStructures.TreeHeadIsRegular` | types.go:320-326 | so is the signed part of a tree head |
| `CtStructures.ChainsAreRegular` | types.go:239-248 | so are the chains that accompany an entry |
| `CtSerialization.SctInputsAreInjective` | serialization.go:31-58 | equal SCT signature inputs come from equal versions, timestamps, extensions, entry types and selected entries |
| `CtSerialization.SthInputsAreInjective` | serialization.go:62-80 | equal tree head signature inputs come from equal versions, timestamps, sizes and root hashes |
| `CtSerialization.SctAndSthInputsDiffer` | serialization.go:31-80 | no octets are both an SCT and a tree head signature input |
| `CtSerialization.LeafHashInputsAreInjective` | serialization.go:229-238 | the octets hashed for a leaf determine the leaf |
| `CtSerialization.LeafShape` | types.go:372-376 | whatever encodes as a leaf is one, and exactly the variant its entry type names is present |
| `CtSerialization.EntryShape` | types.go:361-368 | the same for a timestamped entry |
| `CtSerialization.RawLogEntryFromLeaf` | serialization.go:253-289 | never dereferences an absent variant; succeeds exactly for the entry whose leaf encodes to the leaf input and whose certificate and chain come from the extra data, for known entry types |
| `DerInteger.ParseInt64` | asn1/asn1.go:126-145 | the 64-bit shifting loop with sign extension computes the two's complement value of 1 to 8 octets, after the checks of CheckInteger, and rejects more |
| `DerInteger.ParseBigInt` | asn1/asn1.go:167-185 | complementing, incrementing and negating computes the two's complement value of any number of octets, so it agrees with the 64-bit parser |
| `DerInteger.Int64Length` | asn1/marshal.go:100-114 | the two shifting loops count the octets of the minimal form |
| `DerInteger.BigIntIsMinimal` | asn1/marshal.go:153-185 | the encoder of big integers produces the minimal two's complement form for every integer |
| `DerInteger.MinimalMeans` | asn1/marshal.go:98-122 | the minimal form has the value and passes the minimality rule of section 8.3 of ITU-T X.690 |
| `DerInteger.MinimalIsUnique` | asn1/asn1.go:108-122 | octets that pass the rule are the minimal form of their value |
| `DerInteger.StrictDecodingIsCanonical` | asn1/asn1.go:108-185 | strict parsing accepts exactly the minimal octets, and encoding what was parsed gives them back |
| `DerInteger.EncodingRoundTrips` | asn1/marshal.go:153-185 | every integer's encoding is accepted by strict parsing and has its value |
| `DerInteger.MinimalLength` | asn1/marshal.go:100-114 | n octets suffice exactly for the integers from -128*256^(n-1) to 128*256^(n-1) - 1 |
| `DerInteger.Int64Range` | asn1/asn1.go:131-135 | at most eight octets exactly for 64-bit integers |
| `DerTagLength.ParseBase128Int` | asn1/asn1.go:340-365 | the loop reads the base-128 number and ends right after it, or fails as the specification does |
| `DerTagLength.Base128IntLength` | asn1/marshal.go:124-135 | the count is the length of the base-128 form |
| `DerTagLength.AppendBase128Int` | asn1/marshal.go:137-151 | appends the base-128 form and nothing else |
| `DerTagLength.Base128RoundTrips` | asn1/asn1.go:340-365 | a number reads back, leaving what follows, if and only if it is at most 2^31 - 1 |
| `DerTagLength.Base128IsCanonical` | asn1/asn1.go:343-362 | what was read re-encodes to the same octets exactly if the first is not 0x80 |
| `DerTagLength.LengthLength` | asn1/marshal.go:197-204 | counts the base-256 digits of a length |
| `DerTagLength.AppendLength` | asn1/marshal.go:187-195 | appends those digits, most significant first |
| `DerTagLength.ParseLength` | asn1/asn1.go:600-644 | the loop over length octets reads the definite-form length and ends right after it, or fails as the specification does |
| `DerTagLength.LengthIsCanonical` | asn1/asn1.go:605-644 | accepted length octets are the unique minimal form of section 10.1 of ITU-T X.690 |
| `DerTagLength.LengthRoundTrips` | asn1/asn1.go:616-644 | a length reads back if and only if it is below 2^31, which is what the 1<<23 guard gives |
| `DerTagLength.AppendTagAndLength` | asn1/marshal.go:206-229 | appends the identifier and length octets |
| `DerTagLength.ParseTagAndLength` | asn1/asn1.go:572-645 | reads a header and ends right after it, or fails as the specification does |
| `DerTagLength.TagAndLengthRoundTrips` | asn1/asn1.go:572-645 | a header of any class reads back if and only if tag and length are below 2^31 |
| `DerTagLength.TagAndLengthIsCanonical` | asn1/asn1.go:572-645 | a header that was read re-encodes to the same octets unless it is a high tag padded with 0x80 |
| `DerOid.ParseObjectIdentifier` | asn1/asn1.go:287-326 | the loop that fills an array of len(bytes)+1 numbers stays within it and returns the identifier the specification reads |
| `DerOid.OidRoundTrips` | asn1/marshal.go:244-267 | an encodable identifier reads back if and only if its packed first number and all others are below 2^31 |
| `DerOid.OidIsCanonical` | asn1/asn1.go:287-326 | an identifier that was read is encodable, and re-encodes to the same octets exactly if no number was padded with 0x80 |
| `DerBitString.BitStringRoundTrips` | asn1/asn1.go:227-242 | a bit string reads back from its encoding if and only if it is well formed: length and octets fit and unused bits are zero |
| `DerBitString.BitStringIsCanonical` | asn1/marshal.go:231-242 | what parses is well formed and re-encodes to the same octets |
| `DerBitString.RightAlign` | asn1/asn1.go:210-224 | shifting octet by octet divides the big-endian value by the power of two of the unused bits; whole octets are returned as they are |
| `DerEncoders.Len` | asn1/marshal.go:22-114 | the length of every encoder tree is the length of what it stands for |
| `DerEncoders.LenAll` | asn1/marshal.go:65-71 | the sum over the parts |
| `DerEncoders.LenOid` | asn1/marshal.go:246-252 | the sum over the numbers of an identifier |
| `DerEncoders.Encode` | asn1/marshal.go:22-122 | every encoder writes its octets at the front of its window and leaves the rest of the buffer as it was |
| `DerEncoders.EncodeAll` | asn1/marshal.go:73-79 | the parts are written one after the other without overlap |
| `DerEncoders.EncodeInt64` | asn1/marshal.go:116-122 | writes the minimal two's complement form |
| `DerEncoders.EncodeOid` | asn1/marshal.go:254-259 | writes the octets of the identifier |
| `DerEncoders.AppendOid` | asn1/marshal.go:254-259 | appends number by number the packed first two and the others in base 128 |
| `DerEncoders.EncodeBitString` | asn1/marshal.go:237-242 | writes the padding count and the octets |
| `DerEncoders.MarshalTree` | asn1/marshal.go:683-691 | the one allocated buffer is filled exactly, with the octets of the tree |
| `DerEncoders.IntegerEncodersAgree` | asn1/marshal.go:98-185 | the 64-bit and the big-integer encoder write the same octets |
| `DerEncoders.BigIntWritesMinimal` | asn1/marshal.go:153-185 | the tree built for a big integer writes the minimal form |
| `DerEncoders.ElementReadsBack` | asn1/marshal.go:621-663 | an element written by a tree begins with a header that reads back, followed by its body |
| `DerEncoders.CountElements` | asn1/asn1.go:657-688 | the loop over offsets counts the elements, or fails on the first bad header, kind or length, as the specification splits them |
| `DerEncoders.SequenceSplits` | asn1/asn1.go:657-688 | elements written one after the other are split into the same elements if all have the expected tag, class and form, string and time tags passing for one another, and give a mismatch otherwise |
| `SubmissionState.SafeSubmissionState.constructor` | submission/races.go:63-73 | the needs are the minimums, by the loop over the groups |
| `SubmissionState.SafeSubmissionState.RequestLog` | submission/races.go:77-98 | one atomic request, for every state: the new state and the answer |
| `SubmissionState.SafeSubmissionState.IsAwaited` | submission/races.go:85-92 | true exactly if some group of the log is short, whatever order the groups are walked in |
| `SubmissionState.SafeSubmissionState.SetLogResult` | submission/races.go:103-133 | one atomic result: the new state and the set of cancel functions called |
| `SubmissionState.SafeSubmissionState.CountAnswer` | submission/races.go:111-116 | the pass over the groups that tests and lowers needs as it goes has, in any order, the effect of testing first and lowering all |
| `SubmissionState.CountAlongIsCount` | submission/races.go:111-116 | the value-level form of the same: every order of the groups gives one outcome |
| `SubmissionState.SafeSubmissionState.CancelAllSuperfluous` | submission/races.go:120-132 | calls and clears exactly the stored cancel functions of logs no group waits for |
| `SubmissionTheorems.CompleteMeansEnough` | submission/races.go:136-144 | in every reachable state a group counts as complete exactly when at least its minimum of its logs have answered with an SCT |
| `SubmissionState.SafeSubmissionState.CollectScts` | submission/races.go:146-156 | lists each kept SCT once, with its log |
| `SubmissionLedger.SuccessEffect` | submission/races.go:103-116 | an SCT lowers the need of exactly the groups of its log and is kept exactly if one of them was short |
| `SubmissionLedger.SuccessBalanced` | submission/races.go:103-116 | needs, kept SCTs and received SCTs stay in balance when a log that had not answered does |
| `SubmissionLedger.AsksSound` | submission/races.go:77-98 | a request by any goroutine keeps the books sound |
| `SubmissionLedger.HandsInSound` | submission/races.go:103-133 | an answer of any kind keeps the books sound |
| `SubmissionLedger.HandsInGrows` | submission/races.go:103-133 | an answer takes nothing back: kept SCTs, completed groups and logs no longer waited for stay so |
| `SubmissionRace.StepSafe` | submission/races.go:170-289 | every step of every goroutine keeps the invariant |
| `SubmissionRace.CollectedMeets` | submission/races.go:146-156 | if all groups are complete, what is collected meets the policy |
| `SubmissionTheorems.GetSctsIsSound` | submission/races.go:262-289 | in every run, a nil error means at least the minimum of SCTs from distinct logs of every group; and every SCT returned is the one its log answered with |
| `SubmissionTheorems.NeedsAreConserved` | submission/races.go:63-116 | in every reachable state a need is the minimum less the logs of the group that answered with an SCT, at least the smaller of both numbers is kept, and the total kept is at most the sum of the minimums |
| `SubmissionTheorems.ChromeKeepsFewScts` | ctpolicy/chromepolicy.go:29-62 | under the Chrome policy at most one SCT beyond the base minimum is ever kept |
| `SubmissionTheorems.LogIsAskedOnce` | submission/races.go:77-98 | in every run no two goroutines, and none twice, are told to ask the same log |
| `SubmissionTheorems.RefusalIsFinal` | submission/races.go:77-98 | a goroutine is refused only if its log was asked before or no group will ever wait for it in any continuation |
| `SubmissionTheorems.StoredCancelIsOfUse` | submission/races.go:96-132 | a stored cancel function belongs to the goroutine that asked that log, and some group still waits for the log |
| `SubmissionTheorems.CancelIsFinal` | submission/races.go:118-132 | no cancel function is called twice, and a log whose request was cancelled is not waited for in any continuation |
| `SubmissionTheorems.KeptSctStays` | submission/races.go:103-116 | a kept SCT is neither dropped nor replaced in any continuation |
| `SubmissionFailure.FailureMeansExhausted` | submission/races.go:182-218 | while the context is alive, a race reports failure only after every log of its session has been asked |
| `SubmissionExactness.SeparateGroupsReportExactly` | submission/races.go:262-289 | while the context is alive, whatever the sessions: if no two groups that want SCTs overlap, an error is returned exactly if the SCTs returned fall short of the policy |
| `SubmissionFalseFailure.SharedLogFailsFalsely` | submission/races.go:198-218 | for every policy with full sessions in which two groups that want SCTs overlap, some run returns an error together with SCTs that meet the policy |
| `SubmissionFalseFailure.ReportsAreExactIff` | submission/races.go:198-289 | with full sessions, error and shortfall coincide in all runs with a living context if and only if no two groups that want SCTs overlap |
| `SubmissionFalseFailure.ChromeFailsFalsely` | ctpolicy/chromepolicy.go:29-62 | under the Chrome policy, whatever the sessions, some run returns an error together with SCTs that meet the policy |
| `LogPolicy.LogGroupInfo.SetMinInclusions` | ctpolicy/ctpolicy.go:41-51 | an error exactly for negative numbers and those beyond the group, of which the latter are kept |
| `LogPolicy.LogGroupInfo.Populate` | ctpolicy/ctpolicy.go:53-64 | the members are the logs of the operators included, each of weight 1 |
| `LogPolicy.LogGroupInfo.SatisfyMinimalInclusion` | ctpolicy/ctpolicy.go:68-79 | true exactly if at least the minimum, and at least one, of the members have positive weight |
| `LogPolicy.LogGroupInfo.SetLogWeights` | ctpolicy/ctpolicy.go:84-105 | refuses negative weights and too few positive ones, and then changes nothing; otherwise members get the given weight or none; weights stay valid |
| `LogPolicy.LogGroupInfo.SetLogWeight` | ctpolicy/ctpolicy.go:110-129 | refuses strangers, negative weights and too few positive ones, and then changes nothing; otherwise changes one weight; weights stay valid |
| `LogPolicy.LogGroupInfo.GetSubmissionSession` | ctpolicy/ctpolicy.go:133-157 | for every sequence of draws, the session lists exactly the logs of positive weight, each once, and so at least as many as the group wants |
| `LogPolicy.WeightedRandomSample` | ctpolicy/tools.go:26-45 | for every draw and every walking order: picks the log whose share of the total holds the draw, and nothing exactly if a weight is negative or none is positive |
| `LogPolicy.GroupByLogs` | ctpolicy/ctpolicy.go:213-224 | the nested loops produce the inverse of the map from groups to logs |
| `LogPolicy.NewGroup` | ctpolicy/ctpolicy.go:188-193 | a group built without error has valid weights: as many positive ones as its minimum asks for |
| `LogPolicy.LifetimeIsWholeMonths` | ctpolicy/ctpolicy.go:197-206 | the lifetime is the greatest number of months that fit between the dates |
| `LogPolicy.LogsByGroup` | ctpolicy/chromepolicy.go:29-62 | fails exactly if one of the three groups has too few logs; otherwise the groups have the shape the bound on SCTs rests on, and the base minimum of the lifetime |
| `Fetcher.Fetcher.Prepare` | scanner/fetcher.go:102-120 | the tree head is fetched once; the end index is then the tree size, as a signed number, or an explicit smaller one |
| `Fetcher.Fetcher.UpdateSth` | scanner/fetcher.go:214-249 | the end index moves to the first acceptable tree size, or stays when the waiting ends; it grows exactly if the size fits the signed type or the index was negative |
| `Fetcher.Fetcher.SendRange` | scanner/fetcher.go:182-203 | one turn of the generator, for every batch size: the range starts where the last ended and ends within the tree, and is non-empty and at most a batch exactly if the start is below the end and the batch size positive |
| `Fetcher.Fetcher.GenRanges` | scanner/fetcher.go:172-206 | the ranges sent follow each other from the start index; with a positive batch size each is non-empty and at most a batch, however the tree grows |
| `Fetcher.FetchRange` | scanner/fetcher.go:259-273 | whatever the lengths of the answers, the indices delivered for a range are consecutive from its start, up to where asking continues |
| `Fetcher.Flatten` | scanner/scanner.go:295-299 | entry i of a batch gets the index of the batch plus i |
| `FetcherRuns.StepConserved` | scanner/fetcher.go:172-275 | in every step, for every index: times delivered plus times pending is one if it was handed out, plus the times it came unasked |
| `FetcherRuns.RangesTile` | scanner/fetcher.go:172-206 | in every reachable state the ranges sent are contiguous, non-empty and no longer than a batch |
| `FetcherRuns.NothingIsDeliveredTwice` | scanner/fetcher.go:255-275 | with any number of workers, if no answer was longer than asked, no index is delivered twice or from outside what was handed out |
| `FetcherRuns.DeliveryIsExactlyOnce` | scanner/fetcher.go:125-167 | when Run returns and its context was not cancelled, after Stop or not, in continuous mode or not: the indices delivered are those from the base to the frontier, each once, if and only if no answer was longer than asked |
| `FetcherRuns.ReturnFrontier` | scanner/fetcher.go:125-206 | the frontier is where the ranges sent end; without Stop it is the end of the interval or, in continuous mode, of the tree |
| `FetcherRuns.WholeIntervalIsDelivered` | scanner/fetcher.go:125-158 | without continuous mode or Stop, the interval asked for is delivered, each index once, if and only if no answer was longer than asked |
| `FetcherRuns.HonestLogIsCopied` | scanner/fetcher.go:255-275 | from a log that answers with its entries, a run that returns uncancelled has delivered each index up to the frontier once, with the entry of the tree at that index |
| `FetcherRuns.NoWorkersFetchNothing` | scanner/fetcher.go:144-155 | with a parallelism of zero, Run returns and nothing is delivered |
| `FetcherRuns.NoBatchFetchesNothing` | scanner/fetcher.go:195-203 | with a batch size below one, nothing is ever delivered |
| `FetcherRuns.LateStartIsIgnored` | scanner/fetcher.go:182-203 | a start index beyond the end, in continuous mode: a run that delivers an index below it |
| `FetcherRuns.StartIsHonouredIff` | scanner/fetcher.go:182-203 | no run delivers an index below the start index, exactly if the mode is not continuous, the start is not beyond the end, or the end cannot move |
| `ChainFixer.Less` | fixchain/fixer.go:134-143 | the loop computes the lexicographic order of chains by the encodings of their certificates |
| `ChainFixer.BeforeTotal` | fixchain/fixer.go:134-143 | the order is total up to equal chains, and asymmetric |
| `ChainFixer.BeforeTransitive` | fixchain/fixer.go:134-143 | the order is transitive |
| `ChainFixer.Swap` | fixchain/fixer.go:146-150 | exchanges two chains and nothing else |
| `ChainFixer.Sort` | fixchain/fixer.go:186-187 | in place, through Less and Swap: sorted, and a permutation |
| `ChainFixer.SuperChainsAreContiguous` | fixchain/fixer.go:180-184 | in sorted order nothing but super chains of a chain comes between it and one of them |
| `ChainFixer.IndexInRange` | fixchain/fixer.go:199-204 | the index into the later chain is never out of range |
| `ChainFixer.RemoveSuperChains` | fixchain/fixer.go:179-211 | returns chains of the input that cover it, none a prefix of another |
| `ChainFixer.MinimalMeans` | fixchain/fixer.go:152-178 | so a chain is returned exactly if no other chain of the input is a proper prefix of it |
| `ChainFixer.MinimalIsUnique` | fixchain/fixer.go:152-178 | and the chains returned do not depend on how equal chains were sorted |
| `Slices.Append` | x509/cert_pool.go:111-119 | the items and the new one; written into the shared array if it has room, else into a new one, the old one unchanged |
| `Slices.AppendTwice` | x509/cert_pool.go:28-46 | two appends to slices that share room overwrite each other, which is what copying must prevent |
| `Slices.Duplicate` | x509/cert_pool.go:34-45 | the same items in a new array |
| `Slices.IndexMap.Add` | x509/cert_pool.go:113-119 | appends to the slice of one key, nil if missing, and to no other key's, and uses no array but its own and new ones |
| `Slices.IndexMap.Copy` | x509/cert_pool.go:34-43 | the loop over an index map, in any order, gives a map of its own with the same positions in arrays of its own |
| `CertPool.Pool.constructor` | x509/cert_pool.go:21-26 | an empty pool whose indexes are right |
| `CertPool.Pool.Copy` | x509/cert_pool.go:28-46 | a pool with the same certificates and right indexes that shares no object or array with the original |
| `CertPool.ExtendCopy` | x509/cert_pool.go:48-54 | adding to a copy writes to no object or array of the original |
| `CertPool.ExtendBoth` | x509/cert_pool.go:28-54 | and what is added to the original afterwards does not reach the copy |
| `CertPool.Pool.AddCert` | x509/cert_pool.go:101-120 | appends unless present, in place where there is room, and keeps both indexes equal to ordered searches through the list |
| `CertPool.Pool.AddCerts` | x509/cert_pool.go:101-120 | the same for any sequence of additions |
| `CertPool.Contains` | x509/cert_pool.go:85-98 | true exactly if a pooled certificate has the same encoding and subject; false for a nil pool |
| `CertPool.FindPotentialParents` | x509/cert_pool.go:70-83 | the positions with the authority key, in order, or else those with the issuer name, in a slice that is the pool's own; nil for a nil pool |
| `CertPool.NamedIsOrdered` | x509/cert_pool.go:118-119 | the name index lists increasing positions of certificates of that name |
| `CertPool.NamedIsComplete` | x509/cert_pool.go:118-119 | and all of them |
| `CertPool.KeyedIsOrdered` | x509/cert_pool.go:114-117 | the key index lists increasing positions of certificates of that key |
| `CertPool.KeyedIsComplete` | x509/cert_pool.go:114-117 | and all of them |
| `CertPool.NameIndexIsEnough` | x509/cert_pool.go:85-98 | if the encoding determines the subject, searching one name finds what a search through all would |
| `CertPool.OtherNameIsNotFound` | x509/cert_pool.go:85-98 | if it does not, an Equal certificate under another name is missed |
| `CertPool.PoolIsTheSetAdded` | x509/cert_pool.go:101-120 | after any additions no two pooled certificates are Equal, and a certificate is found exactly if an Equal one was added |
| `CertPool.AddedInARow` | x509/cert_pool.go:101-120 | additions before and after a copy are additions in a row |
| `CertPool.CopyIsTheSetAdded` | x509/cert_pool.go:28-120 | so a pool that comes from a copy finds exactly what was added before the copy or to it since |
| `CertPool.PoolOnlyGrows` | x509/cert_pool.go:101-120 | additions only extend the list, so positions stay right |
| `TemporalLog.ShardInterval` | client/multilog.go:203-224 | accepted exactly with readable bounds in the right order; the interval holds the dates from the start up to the limit, missing bounds being infinite |
| `TemporalLog.ReadIntervals` | client/multilog.go:87-109 | accepts exactly the configurations whose intervals are valid and adjacent |
| `TemporalLog.NewTemporalLogClient` | client/multilog.go:82-125 | the same for the client built from them, if a log client can be made for each shard; else the first that cannot be is reported |
| `TemporalLog.TemporalLogClient.IndexByDate` | client/multilog.go:190-201 | returns the one shard that takes the date, and fails exactly outside the span of the configuration |
| `TemporalLog.IntervalsAreDisjoint` | client/multilog.go:87-109 | no date belongs to two shards |
| `TemporalLog.ShardsPartition` | client/multilog.go:87-109 | the shards partition the span from the first lower to the last upper bound |

## Left out

- HTTP, DNS, JSON, base64, PEM, file handling, the submission proxy, log list refresh and watching (`jsonclient/`, `dnsclient/`, `client/logclient.go`, `submission/proxy.go`, `loglist/`, `loglist2/`, `watcher/`): input and output, and simple filters.
- Cryptography and X.509 parsing and verification (`tls/signature.go`, `signatures.go`, `x509/`): certificates are their encodings and the fields the modelled code reads; hashing is left out after its input.
- Platform root stores, the front end and its Trillian back end (`x509/root_*.go`, `trillian/`): not modelled.
- ASN.1 strings, times, booleans and the reflective parser and builder with optional, default and lax rules (`asn1/asn1.go:765-1100`, `asn1/marshal.go:417-670`): only the primitives, the header of an element and the splitting of a sequence are modelled.
- TlsMethods.FieldTagToFieldInfo: starts from clauses, not from the characters of the tag; clauses whose number does not parse, which the source ignores, are no clauses.
- TlsTheorems.MarshalThenParse: is about the reading of RFC 5246; TlsReadings.CodeReadsBackIff says for every schema exactly when the code reads the same.
- Reflection: a Go type is a schema value, a Go value a `Value`; a nil and an empty slice are the same value, and a pointer field is present or not.
- Loops of the codec over elements that take no octets do not end in the source; the model reports them as diverging instead.
- Bitwise operations are written as arithmetic on integers of the same width.
- Timing in the submission race (`submission/races.go:158-166`, `submission/races.go:221-238`): when a goroutine's turn comes is left to the interleaving, so the number of requests started at once is not modelled.
- The text of errors, in particular the names listed by completenessError (`submission/races.go:246-257`): only whether there is an error.
- Weights and draws are real numbers: float32 rounding, with which a draw may pick nothing, is not modelled.
- The lock around log weights and the read of the weights before it (`ctpolicy/ctpolicy.go:141-148`): the group's methods are modelled as if called one at a time.
- Tree sizes of 2^63 and more in the runs of the fetcher, which become negative end indices, and overflow of indices near the ends of the 64-bit range; `Fetcher.Fetcher.Prepare` and `Fetcher.Fetcher.UpdateSth` have the conversion.
- Back-off, deadlines and logging of the fetcher; that a run ends, as opposed to what holds when it does.
- ChainFixer.Sort: stands for the library's sort, whose algorithm is not modelled; the theorems hold for every sorted permutation. Nil certificates in chains are not modelled.
- A nil certificate, on which AddCert panics, and how much spare room a Go append leaves, which is a parameter.
- `fixchain/hash.go` and `x509/error.go`: nothing here rests on them.
- Conversion of protocol buffer timestamps to times: a timestamp is readable, with a time, or not.
