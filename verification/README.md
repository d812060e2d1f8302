# Verified models of a workshop service

A multi-tenant service for car workshops keeps customers, receptions, service orders, media and memberships in
PostgreSQL and media objects in an S3-compatible store. This project models its hardest parts in Dafny and proves what
they promise, for every input, every run and every interleaving. `dafny verify dfyconfig.toml` checks all of it.

Each module starts from the code as it branches. Loops are methods proved equal to a specification function; objects whose
methods change their fields are classes whose methods give the whole new state; protocols are step systems with an
invariant that every step keeps. The theorems are then about the specification functions and the runs.

- **Canonical evidence** (`UnicodeText`, `CanonicalText`, `Base64Url`, `NoticeBundle`): the preimage of a consent text hash
  can be decoded, so equal bytes mean equal evidence; base64url decoding is a bijection; a bundle that was issued verifies
  exactly under stated conditions, and what verifies is authentic. The key ring does not refuse two versions with equal key
  bytes, so the round trip needs the MAC of the issuing version to be the first that matches.
- **LIST replies** (`XmlText`, `XmlTree`, `XmlReply`, `Inventory`): the stack-based element reader against a grammar, and
  the round trip of printed replies down to the page of keys they report.
- **Configuration names** (`JsonKeys`): the token scan that looks for repeated names against the tree of the JSON text.
- **PNG** (`Crc32`, `CrcPolynomial`, `PngChunks`, `Adam7`, `PngScanlines`, `PngFile`): the checksum as polynomial
  division and as an error detector, the chunk grammar, the interlace passes, and scanlines judged chunk by chunk.
- **Fragmented video** (`IsoBoxes`, `IsoFragments`, `IsoMovie`, `IsoReads`, `IsoWriter`, `IsoWritten`, `IsoPrinted`): box
  walking, the run accounting of movie fragments, where every read of the inspection lies, and movies as data: which of
  the printed ones are accepted, and as which spans.
- **Reconciliation** (`SortedLists`, `Selection`, `Streaming`, `Samples`, `Sweep`, `SweepProofs`,
  `SweepJudgement`, `SweepPaging`, `SweepReport`): the bounded sample is a one-shot selection; the sweep by interleaved workers counts
  everything once, and what it says of a row or key rests on what was seen; orphans need complete evidence; the samples
  of every run, and that recording never throws.
- **Locks and leases** (`DownloadLimits`, `DownloadHandoff`, `InvitationLease`, `RetentionLocks`): admission of downloads and
  who gets a free place, delivery leases over two clocks, and the tiered row locks of media retention.
- **Tenant transactions** (`TenantRequest`): hooks, aborts, retries and the inspection gap around one reserved connection.
- **Order gallery** (`OrderGallery`): keyset windows filtered by the link graph.
- **Domain rules over runs** (`Memberships`, `MembershipLocks`, `ReceptionClose`, `ReceptionLocks`): owners remain and
  authority is closed; closes number orders densely. Both also as transactions in steps that refine the atomic commands.

Hashes, MACs, ciphers, NFC, inflate, JSON.parse, percent-decoding and date parsing are parameters; each theorem names the
laws it uses (`NoticeBundle.BundleExample`, `CanonicalText.IdentityIsStable`, `JsonKeys.ParsersExist` and `IsoWriter.BufferWrites` meet
them). Clocks,
I/O results and scheduling are events. SQL rows are maps, sets and sequences; row and advisory locks are steps.

Findings where the code and what is written about it differ:

- `canonicalizeText` removes one byte order mark only, so it is not idempotent: `CanonicalText.TwoBomsAreNotCanonical` gives
  a text, and `CanonicalText.CanonicalizeTwice` says that the texts which start with two marks are exactly the ones.
- `LAST_OWNER_REQUIRED` is never raised by the checks of the role commands: whoever reaches that check is another active
  owner (`Memberships.NeverLastOwner`).
- The version byte of a decode time box is read before its size is checked, so one read can leave its box
  (`IsoReads.StrayRead`). It does exactly when that box is empty, and then the file is refused (`IsoReads.ReadsInBox`).
- PNG chunk types are decoded as ASCII, which drops the top bit of each byte: `PngChunks.DisguisedHeader` is not a type of
  four letters, `PngChunks.PlainTypeExact` says when an accepted type is one.
- The lease length is documented as clamped by the database; the SQL function raises outside 2 to 120 seconds
  (`InvitationLease.LeaseNotClamped`). The default never leaves that range (`InvitationLease.DefaultLeaseFits`).
- The dots of the namespace in the opening-tag pattern match any character: `XmlReply.OtherHost` is taken for the service's
  namespace, `XmlReply.NamespaceExact` says what is.

## Model

| member | source | states |
|---|---|---|
| `UnicodeText.HasValidUnicode` | src/platform/unicode-text.ts:34-47 | the index loop accepts a string of UTF-16 code units exactly when it is the UTF-16 form of some sequence of scalar values |
| `UnicodeText.WellFormedIffEncoded` | src/platform/unicode-text.ts:34-47 | the pair-skipping check and the encoder agree on which strings are well formed |
| `UnicodeText.Utf8DecodeOfUtf8` | src/privacy/canonical-text.ts:55-58 | the UTF-8 decoder used by the preimage decoder undoes the encoder on every scalar sequence |
| `UnicodeText.FromUtf8OfBytes` | src/privacy/canonical-text.ts:55-58 | the UTF-8 bytes of a well-formed string give the string back; a zero byte occurs exactly where U+0000 does |
| `CanonicalText.WriteU64be` | src/privacy/canonical-text.ts:49-53 | the buffer holds the length as eight base-256 digits, most significant first |
| `CanonicalText.FromBigEndianOfBigEndian` | src/privacy/canonical-text.ts:49-53 | the digits give the number back when it fits |
| `CanonicalText.AppendSnapshot` | src/privacy/canonical-text.ts:60-64 | the loop over the notice fields fails exactly when a field cannot be canonicalized, and otherwise lays out the option-tagged fields in order |
| `CanonicalText.AuthorizationTextPreimage` | src/privacy/canonical-text.ts:66-82 | the appended parts are the layout of the canonicalized evidence; any canonicalization failure is the result |
| `CanonicalText.ReadTokenOfToken` | src/privacy/canonical-text.ts:42-47 | a NUL-terminated token is read back before any continuation |
| `CanonicalText.ReadBlockOfPrefixed` | src/privacy/canonical-text.ts:55-58 | a length-prefixed block is read back before any continuation |
| `CanonicalText.ReadFieldOfField` | src/privacy/canonical-text.ts:60-64 | an option-tagged snapshot field is read back before any continuation, null apart from the empty string |
| `CanonicalText.DecodeOfLayout` | src/privacy/canonical-text.ts:66-82 | a decoder undoes the whole layout |
| `CanonicalText.EvidenceExact` | src/privacy/canonical-text.ts:35-82 | the evidence of an input: every text in canonical form, the three tokens not empty and without U+0000, the five notice fields in their order, null staying null; otherwise there is no preimage |
| `CanonicalText.LayoutFlat` | src/privacy/canonical-text.ts:66-82 | the preimage byte for byte: domain, three tokens each ended by a zero byte, two texts behind their lengths, five fields tagged 0 for null and 1 for a text |
| `CanonicalText.PreimageUnambiguous` | src/privacy/canonical-text.ts:66-82 | two inputs have equal preimage bytes exactly when all their canonicalized tokens, texts and snapshot fields are equal |
| `CanonicalText.CanonicalizeTwice` | src/privacy/canonical-text.ts:35-40 | canonicalizing a well-formed text twice is canonicalizing it once exactly when the text does not start with two byte order marks |
| `CanonicalText.TwoBomsAreNotCanonical` | src/privacy/canonical-text.ts:35-40 | concrete text that starts with two marks, on which canonicalization is not idempotent |
| `Base64Url.DecodeBijection` | src/privacy/notice-bundle.ts:100-105 | strict base64url decoding is a bijection between the accepted strings and the non-empty byte sequences, inverse to the encoder |
| `Base64Url.AcceptedStrings` | src/media/order-query-cursor.ts:18-23 | accepted are exactly the non-empty strings of alphabet symbols whose length is not 1 modulo 4 and whose unused low bits are zero |
| `NoticeBundle.OpenEnvelopeExact` | src/privacy/notice-bundle.ts:141-151 | a bundle opens as payload and MAC exactly when it is their envelope, the payload is not empty, the MAC has 32 bytes and the length limit holds |
| `NoticeBundle.VersionExact` | src/privacy/catalog.ts:21-21 | a document version is one letter or digit, or two of them around at most 38 letters, digits, dots, underscores and hyphens |
| `NoticeBundle.MatchVersion` | src/privacy/notice-bundle.ts:153-160 | the loop without early exit yields the first ring version whose MAC matches |
| `NoticeBundle.ParseAuthorizations` | src/privacy/notice-bundle.ts:230-241 | the loop reads the entries, refusing a repeated purpose |
| `NoticeBundle.PayloadRoundTrip` | src/privacy/notice-bundle.ts:219-248 | parsing the JSON value of a payload returns that payload exactly when the payload is valid |
| `NoticeBundle.PayloadExact` | src/privacy/notice-bundle.ts:219-248 | a JSON value is read as a payload exactly when it is the JSON form of that payload, with no other name in it, and the payload is valid |
| `NoticeBundle.CheckTexts` | src/privacy/notice-bundle.ts:178-185 | the loop accepts exactly when every text equals the published one |
| `NoticeBundle.VerifyPrivacyNoticeBundle` | src/privacy/notice-bundle.ts:141-187 | authentication, then parsing, then version, tenant, window and catalog, with the error of the first check that fails |
| `NoticeBundle.VerificationExact` | src/privacy/notice-bundle.ts:141-187 | a bundle verifies to a payload exactly when it is an envelope sealed with a key of the ring, no earlier key sealing it, over the JSON text of that payload, which names the version of this key, is valid, of the tenant, within its window and says only published texts |
| `NoticeBundle.RefusalExact` | src/privacy/notice-bundle.ts:141-161 | malformed is exactly what is no envelope, a MAC mismatch is what no key seals; any other refusal is of a sealed bundle |
| `NoticeBundle.IssuedBundleVerifies` | src/privacy/notice-bundle.ts:118-187 | an issued bundle verifies, and to its own payload, exactly when the inputs are acceptable and no earlier ring key gives the same MAC; JSON and dates need to read back only this payload and these two times |
| `NoticeBundle.BundleExample` | src/privacy/notice-bundle.ts:118-187 | a ring, catalog, request and primitives that meet every condition of the round trip, with a bundle that verifies |
| `NoticeBundle.AcceptedIsAuthentic` | src/privacy/notice-bundle.ts:141-187 | whatever is accepted is an envelope whose MAC is right under the ring key of its own version, for the expected tenant, with only published texts |
| `XmlText.UnescapeExact` | src/media/reconciliation-r2.ts:21-30 | a string is read as a text exactly when it spells it, each character raw or by some allowed reference |
| `XmlText.NumericExact` | src/media/reconciliation-r2.ts:25-28 | the decimal reference of a number and both hexadecimal ones stand for the character of that number, and are refused for control characters, surrogates and numbers beyond the last plane |
| `XmlText.EntityOnly` | src/media/reconciliation-r2.ts:21-24 | there are no other references than the five named ones, with what they stand for, and numbers in digits |
| `XmlText.UnescapeOfEscape` | src/media/reconciliation-r2.ts:21-30 | unescaping undoes escaping on every text |
| `XmlTree.RunItems` | src/media/reconciliation-r2.ts:36-48 | the stack machine run over balanced content within the depth limit builds exactly that content |
| `XmlTree.RunInvalidItems` | src/media/reconciliation-r2.ts:36-48 | content that breaks a limit is refused whatever follows it |
| `XmlTree.ParseTagsExact` | src/media/reconciliation-r2.ts:31-51 | the reader accepts exactly the balanced documents of at most four levels, with white space only beside the root, and reads each as the grammar does |
| `XmlReply.ReadTree` | src/media/reconciliation-r2.ts:31-51 | the loop with its stack of open elements reads the tree of the tokens |
| `XmlReply.NameExact` | src/media/reconciliation-r2.ts:37-43 | element names are ASCII letters and digits, a letter first |
| `XmlReply.NamespaceExact` | src/media/reconciliation-r2.ts:43-43 | an attribute is taken for the service namespace exactly when it equals it but for its two dots, where any character stands that does not end a line |
| `XmlReply.OtherHost` | src/media/reconciliation-r2.ts:43-43 | another host name that is taken for the service namespace |
| `XmlReply.ReadOfPrint` | src/media/reconciliation-r2.ts:31-51 | a printed tree reads back as itself when it has at most four levels, and is refused otherwise |
| `XmlReply.ReadOfDeclaredPrint` | src/media/reconciliation-r2.ts:32-32 | the same behind an XML declaration |
| `Inventory.KeysAre` | src/media/reconciliation-r2.ts:68-73 | the keys read from the entries are the keys they spell, each not empty, within 1024 bytes and under the prefix |
| `Inventory.HasExact` | src/media/reconciliation-r2.ts:52-57 | a field is read exactly when one child, and only one, has its name, that child is a leaf and holds the text |
| `Inventory.DecimalExact` | src/media/reconciliation-r2.ts:58-77 | numbers in a reply are compared in decimal digits without leading zeros that mean the number |
| `Inventory.LengthsExact` | src/media/reconciliation-r2.ts:68-76 | key lengths are counted in bytes of UTF-8, token lengths in units of UTF-16 |
| `Inventory.AcceptableExact` | src/media/reconciliation-r2.ts:68-78 | the pages accepted: at most as many keys as asked for, no two equal, none empty, of at most 1024 bytes behind the prefix; a truncated page has keys and a new token of 1 to 4096 units, a last one none |
| `Inventory.InventoryExact` | src/media/reconciliation-r2.ts:58-79 | a reply tree is read as a page exactly when it echoes the request, says that page and the page is acceptable |
| `Inventory.PrintedInventory` | src/media/reconciliation-r2.ts:58-79 | the printed text of any reply that says a page is read as that page when it is acceptable and is a protocol failure otherwise |
| `JsonKeys.ParseConfiguration` | src/media/order-query-cursor.ts:77-94 | the token loop with its stack of name sets lets a text through exactly when it parses and no name is repeated |
| `JsonKeys.TokenizeRender` | src/media/order-query-cursor.ts:79-79 | the token scan of a rendered JSON text finds its strings and punctuation and nothing else |
| `JsonKeys.UnquoteBody` | src/media/order-query-cursor.ts:88-88 | a name written with any escapes, the letters of each hex digit in either case, is decoded to what it means |
| `JsonKeys.HexUnitExact` | src/media/order-query-cursor.ts:88-88 | four digits of a numeric escape, most significant first |
| `JsonKeys.HexExact` | src/media/order-query-cursor.ts:88-88 | the hexadecimal digits of either case, with their values |
| `JsonKeys.ShortExact` | src/media/order-query-cursor.ts:88-88 | the two-character escapes and what they stand for |
| `JsonKeys.BodyOfUnquote` | src/media/order-query-cursor.ts:88-88 | whatever can be decoded is written with such escapes and means what it is decoded to |
| `JsonKeys.MixedCaseAlias` | src/media/order-query-cursor.ts:88-88 | two spellings of one name, with the letters of one escape in different cases |
| `JsonKeys.NamesDistinctExact` | src/media/order-query-cursor.ts:77-94 | on every valid JSON text the scan accepts exactly when no object, at any depth, has two names equal after unescaping |
| `JsonKeys.NothingReplaced` | src/media/order-query-cursor.ts:73-76 | the parsed object has as many members as were written exactly when no two names are equal |
| `JsonKeys.MemberKept` | src/media/order-query-cursor.ts:73-76 | when the names are distinct every member written is in the parsed object with its value |
| `JsonKeys.LostIsAmbiguous` | src/media/order-query-cursor.ts:73-76 | a value loses no member at any depth exactly when no object in it repeats a name |
| `JsonKeys.ConfigurationExact` | src/media/order-query-cursor.ts:77-94 | a text is let through exactly when it is JSON without a repeated name, and then its value holds every member written |
| `Crc32.ShiftOut` | src/media/content.ts:57-57 | the inner loop performs n bit steps |
| `Crc32.Crc` | src/media/content.ts:53-60 | the byte loop computes the checksum |
| `Crc32.RunInjective` | src/media/content.ts:53-60 | for a fixed tail the register is an injective function of the register before it |
| `Crc32.RunIsFeed` | src/media/content.ts:53-60 | the byte-wise loop is the bit-serial register fed with the bits of the data |
| `Crc32.BurstDetected` | src/media/content.ts:53-60 | an error confined to 32 consecutive bits always changes the checksum |
| `Crc32.FourByteBurst` | src/media/content.ts:53-60 | two buffers of one length that differ only inside four consecutive bytes, one byte included, have different checksums |
| `CrcPolynomial.FeedDivides` | src/media/content.ts:53-60 | the register is a remainder of the data polynomial; the steps that apply the polynomial give the quotient |
| `CrcPolynomial.RemainderUnique` | src/media/content.ts:53-60 | there is only one remainder of degree below 32 |
| `CrcPolynomial.RegisterIsRemainder` | src/media/content.ts:53-60 | a register value is a remainder of the division exactly when it is what the loop computes |
| `CrcPolynomial.PngGenerator` | src/media/content.ts:57-57 | the constant of the loop is the generator polynomial of the PNG specification, section 5.5 |
| `CrcPolynomial.PngStartAllOnes` | src/media/content.ts:54-54 | the loop starts from the register of all ones |
| `PngChunks.Account` | src/media/content.ts:73-90 | the branches on the chunk type |
| `PngChunks.InspectChunks` | src/media/content.ts:62-93 | the chunk loop returns the verdict of the walk |
| `PngChunks.StepExact` | src/media/content.ts:73-90 | a turn of the loop succeeds exactly when the order rules allow the chunk there, and keeps the loop variables in step |
| `PngChunks.WalkReads` | src/media/content.ts:66-92 | a walk that succeeds has read whole chunks with right checksums in an allowed order |
| `PngChunks.WalkAccepts` | src/media/content.ts:66-92 | every sequence of such chunks in an allowed order is read |
| `PngChunks.ChunksExact` | src/media/content.ts:62-93 | accepted are exactly the signature followed by chunks in an allowed order, and the result says what they hold |
| `PngChunks.KindExact` | src/media/content.ts:69-90 | every kind of chunk by the name its type spells, and any other type by the case of its first letter |
| `PngChunks.PaletteExact` | src/media/content.ts:78-80 | a palette length is allowed exactly when it is that of one to 256 entries of three bytes |
| `PngChunks.PlainTypeExact` | src/media/content.ts:69-70 | an accepted chunk type is four ASCII letters exactly when all four bytes are below 0x80; without their top bits they are letters of the same kind |
| `PngChunks.DisguisedHeader` | src/media/content.ts:69-70 | a type that is not four letters and is taken for IHDR |
| `PngFile.DamagedChunkRefused` | src/media/content.ts:71-71 | a chunk damaged within four consecutive bytes of its type and body is never accepted with its old checksum |
| `Adam7.OnePass` | src/media/content.ts:99-100 | every pixel lies in exactly one of the seven passes |
| `Adam7.AcrossCounts` | src/media/content.ts:104-104 | the ceiling formula counts the columns or rows a pass hits |
| `Adam7.AreasSum` | src/media/content.ts:103-109 | the areas of passes that cover every pixel once add up to width times height |
| `Adam7.BothLayouts` | src/media/content.ts:99-100 | both the progressive and the interlaced layout cover every pixel once |
| `PngScanlines.LayoutExact` | src/media/content.ts:99-100 | which pass holds a pixel: the only one of a progressive image, the one of the Adam7 pattern of an interlaced one |
| `PngScanlines.ExpectedRows` | src/media/content.ts:101-109 | the pass loop lists the rows of the non-empty passes and sums their sizes |
| `PngScanlines.CheckOutput` | src/media/content.ts:121-128 | the loop over one output chunk judges exactly the row starts that fall inside it |
| `PngScanlines.CheckScanlines` | src/media/content.ts:118-135 | the verdict over all chunks is the verdict over the whole stream |
| `PngScanlines.VerdictExact` | src/media/content.ts:118-135 | however the stream was cut, it is accepted exactly when it is a whole image: expected length, every row start at most 4 |
| `PngScanlines.ImageIsFiltered` | src/media/content.ts:122-135 | a stream is a row-by-row image exactly when its length is the expected one and its row starts are allowed filter types |
| `PngScanlines.HeaderRead` | src/media/content.ts:94-98 | which bytes of a header are width, height, depth, colour type, compression, filter and interlacing |
| `PngScanlines.HeaderExact` | src/media/content.ts:94-98 | the headers allowed, and the samples of a pixel by the bits of its colour type |
| `PngScanlines.RowsHoldEveryPixel` | src/media/content.ts:103-109 | the expected size is a filter byte a scanline and every pixel, interlaced or not, with less than a byte to spare on each scanline |
| `PngScanlines.InspectPng` | src/media/content.ts:62-135 | chunks, header, size limit and scanlines in this order |
| `PngScanlines.InspectionExact` | src/media/content.ts:62-135 | without an abort the inspection accepts exactly the PNG files: an allowed chunk sequence, a usable header, and data that inflates to a whole image |
| `IsoBoxes.Atoms` | src/media/content.ts:349-366 | the box loop computes the walk and reads exactly what the walk says |
| `IsoBoxes.AtomsExact` | src/media/content.ts:349-366 | the walk succeeds exactly when the region is tiled by boxes with usable lengths, at most 10001 of them, and returns them |
| `IsoBoxes.AtomsInside` | src/media/content.ts:349-366 | boxes lie inside the region and do not overlap |
| `IsoFragments.Field` | src/media/content.ts:499-503 | the next word is read exactly when it still fits into the box |
| `IsoFragments.ReadTrack` | src/media/content.ts:493-511 | the cursor-driven read of a track fragment header gives the fields at their positions, or the rejection the flags call for, and reads exactly the bytes its trace says |
| `IsoFragments.ReadSample` | src/media/content.ts:535-540 | one sample record is read exactly when it fits and has a size, its size comes from the right word, and nothing is read behind a size of zero |
| `IsoFragments.ReadSamples` | src/media/content.ts:533-542 | the sample loop succeeds exactly when the records fill the box and no size is zero, and adds the sizes up |
| `IsoFragments.ReadStart` | src/media/content.ts:528-531 | where the run starts: explicit offset, or behind the run before it |
| `IsoFragments.ReadRun` | src/media/content.ts:517-543 | one run: its span, with every rejection of the loop body, and where it reads |
| `IsoMovie.ReadDefaults` | src/media/content.ts:474-481 | the loop over the track defaults computes their table |
| `IsoMovie.DefaultsExact` | src/media/content.ts:474-481 | the defaults of every track are tabulated exactly when every box is usable and no track has two |
| `IsoMovie.InspectRun` | src/media/content.ts:517-544 | one run: where the next one may go on, and the tally with its span and samples |
| `IsoMovie.InspectRuns` | src/media/content.ts:514-545 | the loop over the runs of a track fragment |
| `IsoMovie.InspectTrack` | src/media/content.ts:492-546 | one track fragment with its header, decode time and runs |
| `IsoMovie.InspectFragments` | src/media/content.ts:472-549 | the whole inspection: lookup of the movie extends box, track defaults, then the fragments; its reads are exactly the ones that the theorems on reads are about |
| `IsoMovie.FragmentLoop` | src/media/content.ts:482-549 | the loop over the fragments computes the verdict and reads exactly what the trace says |
| `IsoMovie.FragmentsSound` | src/media/content.ts:482-549 | accepted fragments: numbers strictly increase, every run belongs to a track with a default and lies inside one media data box, at most 100000 samples in all, every video track has a run |
| `IsoReads.ReadsInBox` | src/media/content.ts:472-549 | every read of the inspection stays inside the box it belongs to exactly when no track fragment gone through has an empty decode time box, and a file with one is refused as invalid |
| `IsoReads.EmptyTimeRefused` | src/media/content.ts:512-513 | a track fragment with an empty decode time box is refused, whatever byte is read as its version |
| `IsoReads.StrayRead` | src/media/content.ts:512-513 | a concrete fragment, in a file with media data, whose version byte lies behind the end of the fragment, and which is refused |
| `IsoReads.AcceptedMovie` | src/media/content.ts:472-549 | an accepted movie: the table of defaults is that of its boxes, the fragments are sound, and every read stayed inside its box |
| `IsoWriter.BufferWrites` | src/media/content.ts:349-366 | big-endian numbers, signed ones and flags as bits meet what the printed movies ask of their writers |
| `IsoWriter.RowRead` | src/media/content.ts:349-366 | a printed row of boxes, with short, long or open sizes, is walked back to the kinds and contents printed, unless it has more than 10001 boxes |
| `IsoWritten.HeaderRead` | src/media/content.ts:493-511 | a printed track fragment header reads as its track, based at the written base or else at the start of its fragment, with the written size or else the default of the track; one that cannot be used is refused with the rejection of its fault |
| `IsoWritten.RunRead` | src/media/content.ts:517-543 | a printed run reads as the span from the base plus its offset, or from the end of the run before, with exactly the sizes written or else the default; it is accepted exactly when that is usable, in media data and within the limit |
| `IsoPrinted.PrintedMovie` | src/media/content.ts:482-549 | the printed fragments are accepted exactly when all are usable, their numbers rise, every sample of every span lies in media data, at most 100000 samples are counted and every video track has a run; the spans found are the ones claimed |
| `IsoPrinted.PrintedInspection` | src/media/content.ts:472-549 | the same for a movie printed with its movie box: accepted exactly when the defaults in it can be tabulated and, with this table, the fragments are in order |
| `Selection.SelectStep` | src/media/reconciliation.ts:96-110 | selecting again after one more observation is selecting once from everything observed |
| `Streaming.ScanSelects` | src/media/reconciliation.ts:96-110 | a scan keeps the one-shot selection from all notable observations and remembers whether there were too many |
| `Samples.PickChampions` | src/media/reconciliation.ts:100-101 | the first loop picks the first choice of every class |
| `Samples.FillUp` | src/media/reconciliation.ts:103-109 | the second loop fills the remaining places with the smallest others and says whether anything was left out |
| `Samples.Reselect` | src/media/reconciliation.ts:99-110 | one re-selection; it fails exactly when the classes alone exceed the limit |
| `Samples.Recorder.Record` | src/media/reconciliation.ts:90-111 | counters, failure counters, the held-missing flag and the samples after one observation |
| `Samples.ScanIsOneShot` | src/media/reconciliation.ts:96-111 | after any scan the samples are the one-shot selection, and truncated is set exactly when more than fifty different notable ones were seen |
| `Samples.OrderIndependent` | src/media/reconciliation.ts:96-98 | the samples do not depend on the order or the repetition of observations |
| `Samples.FewChampions` | src/media/reconciliation.ts:102-102 | whatever is observed there are at most 28 classes |
| `Samples.AlwaysActionable` | src/media/reconciliation.ts:102-102 | the capacity error is never thrown |
| `Samples.SeverityExact` | src/media/reconciliation.ts:80-87 | samples are ordered by severity (held file missing, object that should be gone, reconciliation to be done, other missing file, the rest) and then by their keys |
| `Samples.SamplesShow` | src/media/reconciliation.ts:80-110 | whatever notable is observed, the samples hold the first of its class, and the first sample is at least as severe |
| `Samples.SamplesSeen` | src/media/reconciliation.ts:93-110 | every sample was observed, and is neither an object that exists as it should, nor metadata, nor a purged object that is absent |
| `SweepReport.NeverThrows` | src/media/reconciliation.ts:75-111 | in no run of the sweep, whatever is answered and however it is scheduled, does recording an entry throw: each fits the samples kept from the ones before it |
| `SweepReport.ReportSamples` | src/media/reconciliation.ts:75-202 | the samples of any run are the one-shot selection from its notable entries, truncated exactly when more than fifty are different |
| `SweepReport.ReportShows` | src/media/reconciliation.ts:79-111 | whatever notable a run records, its samples hold one of that class, and the first sample is at least as severe |
| `SweepReport.SameSamples` | src/media/reconciliation.ts:96-98 | two runs that record the same notable things in any order report the same samples |
| `SweepReport.FlagsAreFailures` | src/media/reconciliation.ts:112-117 | in every run each failure flag is set exactly when a failure of its kind has been recorded |
| `SweepReport.LogGrows` | src/media/reconciliation.ts:79-111 | nothing recorded is taken back or changed later in a run |
| `SweepProofs.StepKeeps` | src/media/reconciliation.ts:118-200 | every step of every worker keeps the ledger: each row and key fetched is pending once or recorded once, or something failed |
| `SweepProofs.CompleteExact` | src/media/reconciliation.ts:156-202 | the report becomes complete exactly when it is made after pages and keys were listed to the end without an abort or a failure, and then every tenant was gone through |
| `SweepProofs.CompleteReport` | src/media/reconciliation.ts:118-202 | in a complete report, for any scheduling, every row and key is recorded exactly once, each class is counted as often as it is recorded, and the counts add up to rows plus objects |
| `SweepProofs.NothingTwice` | src/media/reconciliation.ts:118-202 | in no report is a row or key recorded twice |
| `SweepProofs.OrphanCandidates` | src/media/reconciliation.ts:181-199 | an orphan candidate is recorded only in a complete report, for a key seen present and then without metadata after the listing |
| `SweepJudgement.LifecycleExact` | src/media/reconciliation.ts:44-56 | for every class its exact condition on row and object, apart from any order of branches |
| `SweepJudgement.RereadJudges` | src/media/reconciliation.ts:130-151 | in every run reading a row again records one entry: a lifecycle class exactly when the version is the same, and then the class that fits this row and what the provider had answered for this item before |
| `SweepJudgement.RowEntryExact` | src/media/reconciliation.ts:130-151 | every entry about a row in any report rests on an earlier look at its object and the second look at the row, or says that the row is not stored here |
| `SweepJudgement.KeyEntryExact` | src/media/reconciliation.ts:155-199 | every entry about a key rests on metadata found at its listing, on both rechecks, or says that it was not rechecked |
| `SweepPaging.ListingExact` | src/media/reconciliation.ts:159-180 | in every run a listing is accepted exactly when it is no longer than asked for, names no empty key, none twice and none listed before, and is the last or brings keys and a new token; any other answer is recorded as a storage failure |
| `SweepPaging.PageEnds` | src/media/reconciliation.ts:127-155 | a tenant is finished by a page shorter than asked for, without abort or failure; after any other page the sweep goes on behind its last row |
| `SweepPaging.WithinBudget` | src/media/reconciliation.ts:118-200 | no run asks for more pages or listings than it may, or for larger ones, or has more calls outstanding at a time |
| `DownloadLimits.Admission.constructor` | src/media/download-limits.ts:53-57 | a pool starts empty with one connection less than the driver has, but at least one |
| `DownloadLimits.Admission.Lease` | src/media/download-limits.ts:33-35 | a lease raises the counter and settles the waiter |
| `DownloadLimits.Admission.DrainQueue` | src/media/download-limits.ts:43-50 | the loop hands places to the head of the queue and turns away who is aborted or late |
| `DownloadLimits.Admission.ReleaseLease` | src/media/download-limits.ts:36-41 | the closure of a lease: the first call gives it back and drains the queue, later calls change nothing |
| `DownloadLimits.Admission.ReleaseAdmission` | src/media/download-limits.ts:36-41 | a request gives back the lease it holds, however often it asks |
| `DownloadLimits.Admission.AcquireAdmission` | src/media/download-limits.ts:51-79 | an arrival is admitted, queued or refused |
| `DownloadLimits.Admission.CancelWaiter` | src/media/download-limits.ts:64-70 | timer or disconnect while waiting |
| `DownloadLimits.Admission.DisconnectRequest` | src/media/download-limits.ts:88-96 | the client goes away in any phase |
| `DownloadLimits.Admission.ResumeRequest` | src/media/download-limits.ts:88-99 | the admitted request goes on to reserve a connection |
| `DownloadLimits.Admission.ReservationSettled` | src/media/download-limits.ts:100-109 | the native reservation arrives or fails, wanted or abandoned |
| `DownloadLimits.DrainRestores` | src/media/download-limits.ts:43-50 | draining restores the invariant from any state with free places |
| `DownloadLimits.StepKeeps` | src/media/download-limits.ts:28-111 | every event keeps the invariant |
| `DownloadLimits.AdmissionSafe` | src/media/download-limits.ts:28-111 | under any interleaving the counter equals the outstanding leases and stays within capacity, at most 64 wait, nobody waits while a place is free, and grants follow arrivals |
| `DownloadLimits.SettledOnce` | src/media/download-limits.ts:28-111 | every promise is settled at most once, and every finished request settled it and gave back the lease it had, once |
| `DownloadHandoff.DrainHands` | src/media/download-limits.ts:43-50 | handing over takes waiters from the front only: admits those in time whose clients stayed, turns the others away, touches nobody else |
| `DownloadHandoff.ArrivalExact` | src/media/download-limits.ts:51-79 | in every run an arrival is admitted at once exactly when nobody waits and a place is free, queued behind fewer than 64, and refused otherwise |
| `DownloadHandoff.WaitEnds` | src/media/download-limits.ts:43-79 | in every run a waiter is admitted only when a place is given back within 1000 ms of its arrival, and turned away only when its client left or that time has passed |
| `DownloadHandoff.FirstInTimeServed` | src/media/download-limits.ts:36-50 | in every run, when a place is given back the first waiter that came less than 1000 ms ago gets it |
| `DownloadHandoff.DeliveredExact` | src/media/download-limits.ts:80-111 | a request gets a connection exactly when its reservation arrives while its client stayed and it had not timed out |
| `InvitationLease.StepKeeps` | src/invitations/email.ts:424-482 | every step of workers, clocks and database keeps timing and leases in order |
| `InvitationLease.FlightInsideLease` | src/invitations/email.ts:463-475 | a request in flight lies strictly inside its own active lease, on a pending invitation that outlives it |
| `InvitationLease.DeliverySafe` | src/invitations/email.ts:424-482 | in every run at most one request is in flight, inside its own lease |
| `InvitationLease.StartNeedsPending` | src/invitations/email.ts:463-475 | a request starts only under its own active lease on a pending invitation |
| `InvitationLease.NothingAfterTerminal` | drizzle/0009_s1_04_invitation_delivery_lease.sql:158-167 | when an accept, revoke or expiry commits nothing is in flight, and nothing starts afterwards |
| `InvitationLease.ReleaseOnlyWhenSettled` | src/invitations/email.ts:477-482 | a lease is given back early only when no request can still be answered under it |
| `InvitationLease.DefaultLeaseFits` | src/invitations/email.ts:343-347 | the default lease is the request timeout and 15 seconds, rounded up to whole seconds: it leaves room for a whole request, and for every timeout the configuration admits it lies between 2 and 120 seconds |
| `InvitationLease.LeaseNotClamped` | drizzle/0009_s1_04_invitation_delivery_lease.sql:255-257 | a lease outside 2 to 120 seconds raises and changes nothing; a granted lease has exactly the length asked for |
| `InvitationLease.GrantExact` | drizzle/0009_s1_04_invitation_delivery_lease.sql:255-333 | a lease is granted exactly to the claimed attempt of a pending, unsent invitation that outlives it, while no other is active, for 2 to 120 seconds |
| `InvitationLease.DecideExact` | src/invitations/email.ts:456-469 | an attempt goes on to send exactly when it has a message and a second is left of lease and timeout, two seconds taken off; its window is the shorter of the two |
| `InvitationLease.ClassifyExact` | src/invitations/email.ts:96-171 | which answers are deliveries and which are definite refusals |
| `InvitationLease.EndsRest` | src/invitations/email.ts:477-482 | in every run a lease is given back early only after a decision not to send or a definite refusal, and a delivery is completed only after an acceptance |
| `InvitationLease.SentIsAccepted` | src/invitations/email.ts:463-475 | an invitation is recorded as sent only when the provider accepted a request for it |
| `InvitationLease.RowExact` | drizzle/0009_s1_04_invitation_delivery_lease.sql:313-477 | in every run, how each event changes the delivery row: a lease is set by a grant and ends early only by its own attempt while its job is claimed; an acceptance is recorded once, by an attempt whose job is claimed |
| `InvitationLease.TerminalExact` | drizzle/0009_s1_04_invitation_delivery_lease.sql:158-183 | an invitation ends once, while no lease is active; it is accepted before it is over and expires after |
| `InvitationLease.StartsRead` | src/invitations/email.ts:405-422 | in every run a request starts only for an attempt that found its invitation pending and not over when it prepared the message |
| `TenantRequest.Request.EndTransaction` | src/api/tenant-request.ts:331-333 | an open transaction is marked as ending, and the caller has to wait; any other is left as it is |
| `TenantRequest.EndReleases` | src/api/tenant-request.ts:331-342 | an ended transaction closes with the action given first and its connection is released once; further calls change nothing |
| `TenantRequest.Request.MarkDurableOutcome` | src/api/tenant-request.ts:236-246 | a durable outcome is marked once, on an open transaction, when the route declares it; otherwise nothing changes |
| `TenantRequest.Request.FinalizeTransaction` | src/api/tenant-request.ts:418-443 | the last hook: COMMIT, ROLLBACK or the tripwire error |
| `TenantRequest.StepKeeps` | src/api/tenant-request.ts:331-443 | every hook, abort, retry and reopening keeps the invariant |
| `TenantRequest.FinalizeExact` | src/api/tenant-request.ts:418-443 | what the last hook does to the session of the request, and that it leaves every other session alone |
| `TenantRequest.CommitExact` | src/api/tenant-request.ts:418-443 | in every run a transaction begins to commit exactly in the last hook, when it is the open one, COMMIT is due for the reply, and a reply of 200 to 299 is in time |
| `TenantRequest.ReleasedOnce` | src/api/tenant-request.ts:331-342 | each reserved connection is released at most once, exactly when its transaction is over |
| `TenantRequest.NothingLeaks` | src/api/tenant-request.ts:509-512 | in every run, once the handler is done and the error or response hook has run, nothing is reserved afterwards, and when no statement is pending every connection of the request has been released, once |
| `TenantRequest.CommitJustified` | src/api/tenant-request.ts:426-441 | COMMIT only when the resource check is complete, which under a restricted grant takes a mark of a granted scope since the transaction was opened, and the reply is 2xx or has the status of the marked, route-declared durable outcome |
| `TenantRequest.CheckExact` | src/authz/resource-authorization.ts:118-127 | in every run the check of a transaction is complete exactly when its grant was not restricted, or one of its own scopes was marked while it was the open current one |
| `TenantRequest.SuccessCommits` | src/api/tenant-request.ts:418-443 | a reply of 200 to 299 commits exactly when it is in time and, under a restricted grant, a granted scope was marked before |
| `TenantRequest.OutcomeExact` | src/api/tenant-request.ts:236-246 | the durable outcome of a transaction is the first one marked on it that the route declares |
| `TenantRequest.DurableReplies` | src/api/tenant-request.ts:84-97 | the reply status that commits for each durable outcome |
| `TenantRequest.ReopenedForTheSame` | src/api/tenant-request.ts:362-405 | a reopened transaction has the tenant, user and membership of the first |
| `TenantRequest.OpeningExact` | src/api/tenant-request.ts:467-493 | a refused opening leaves nothing but a released connection; an opened transaction is for the handler, or is rolled back and never commits when the client had gone |
| `TenantRequest.ReopenJustified` | src/api/tenant-request.ts:362-405 | in every run another transaction is opened only after a changed lineage or after an inspection that went well, once each, and retried work goes on only after the former |
| `TenantRequest.OneCommit` | src/api/tenant-request.ts:331-443 | at most one transaction of a request commits |
| `TenantRequest.AtMostThreeAttempts` | src/api/tenant-request.ts:362-377 | from one beginning of retried work to the next the work is started between one and three times, as often as the handler counts |
| `TenantRequest.GivesUpAfterThird` | src/api/tenant-request.ts:362-377 | a changed lineage ends the retries exactly in the third execution; before, the transaction is given up and another one opened |
| `TenantRequest.AbortLeavesRoute` | src/api/tenant-request.ts:514-522 | a client abort never ends a transaction that route code may be using |
| `RetentionLocks.StepKeeps` | src/media/retention.ts:115-189 | every step keeps lock order, plan and proof |
| `RetentionLocks.NoDeadlock` | src/media/retention.ts:147-158 | in every interleaving the wait-for graph, queues for locks included, has no cycle |
| `RetentionLocks.HoldsWhatWasWanted` | src/media/retention.ts:160-164 | at validation the parents held are exactly those the proof remembers, and every session it remembers is held |
| `RetentionLocks.ProofHolds` | src/media/retention.ts:167-189 | a transaction validated by what it remembers holds every parent, session and order of the current link graph as long as it lasts |
| `RetentionLocks.UnchangedIsProven` | src/media/retention.ts:115-189 | a transaction whose links nobody changed since its discovery, and that locked all sessions, does not retry |
| `OrderGallery.OneLink` | src/media/assigned-authorization.ts:54-109 | an eligible asset has exactly one association link |
| `OrderGallery.EligibleExact` | src/media/assigned-authorization.ts:54-109 | without the tenant-wide grant an asset is eligible exactly when it is operational, referenced nowhere else, has one link, whole and of the right purpose, was uploaded for that link only, and the reception of the link is staffed by the reader |
| `OrderGallery.EligibleTenantWide` | src/media/assigned-authorization.ts:54-109 | tenant-wide it is the same without the staffing, or one whole link with completed unbound uploads only |
| `OrderGallery.ListPage` | src/media/order-query.ts:85-102 | the page loop with its set of seen assets returns the page |
| `OrderGallery.PageAtRow` | src/media/order-query.ts:21-35 | a page holds the next rows behind the cursor; there is a next cursor exactly while rows remain, and it continues right behind the page |
| `OrderGallery.WindowsPartition` | src/media/order-query.ts:78-102 | the windows of a traversal, laid end to end, are the candidate list |
| `OrderGallery.ShownIsFilter` | src/media/order-query.ts:90-92 | when no eligible asset has two rows the seen set hides nothing |
| `OrderGallery.GalleryComplete` | src/media/order-query.ts:78-102 | on unchanged data a traversal ends, its windows partition the candidates, and it shows every eligible candidate once, in order, no asset twice; what a restricted reader is shown belongs to a reception it staffs |
| `OrderGallery.GalleryOrder` | src/media/order-query.ts:21-35 | media of the reception come first, then those of its damages by damage; of one parent by sort number, then by asset |
| `Memberships.Tenant.PrepareChange` | src/memberships/roles-service.ts:189-233 | the shared checks of role commands, in order, with the denied audit row where one is written |
| `Memberships.Tenant.AssignMemberRole` | src/memberships/roles-service.ts:235-272 | outcome, members and audit trail after an assignment |
| `Memberships.Tenant.RemoveMemberRole` | src/memberships/roles-service.ts:274-314 | outcome, members and audit trail after a removal |
| `Memberships.Tenant.ChangeMembershipStatus` | src/memberships/lifecycle-service.ts:253-316 | outcome, members and audit trail after a suspension or revocation |
| `Memberships.AuthorityExact` | src/memberships/membership-access.ts:111-122 | an active owner passes every authority check, an active admin those about staff roles only, nobody else any |
| `Memberships.DoneExact` | src/memberships/roles-service.ts:189-314 | exactly which commands take effect, in terms of roles and statuses |
| `Memberships.RefusalExact` | src/memberships/roles-service.ts:189-314 | exactly which refusal every other command gets, in terms of roles and statuses |
| `Memberships.EffectExact` | src/memberships/roles-service.ts:235-314 | what a command does to every holding and every status, and that it does nothing else; which commands leave a success row, a denial row or none |
| `Memberships.NeverLastOwner` | src/memberships/roles-service.ts:285-287 | the last-owner refusal is never reached, whatever the members |
| `Memberships.OwnerRemains` | src/memberships/roles-service.ts:198-232 | whatever commands are given an active owner remains, without the database trigger |
| `Memberships.AuthorityClosed` | src/memberships/roles-service.ts:217-229 | commands of members who are not owners leave every owner and admin holding and the status of the holders as they were |
| `Memberships.StatusAdvances` | src/memberships/lifecycle-service.ts:109-116 | statuses only go forward, members stay, and the roles of inactive members do not change |
| `Memberships.AuditReplays` | src/memberships/roles-service.ts:262-271 | replaying the audit trail over the first members gives the last ones |
| `MembershipLocks.WriteKeeps` | src/memberships/lifecycle-service.ts:230-251 | the write always finds the row that was checked |
| `MembershipLocks.StepKeeps` | src/memberships/roles-service.ts:208-233 | every step of every transaction keeps the invariant: what was read under the lock is still there |
| `MembershipLocks.Serializable` | src/memberships/roles-service.ts:208-314 | any interleaving leaves the rows, audit trail and outcomes of the commands one after the other in the order they ended |
| `MembershipLocks.ActiveOwnerAlways` | src/memberships/roles-service.ts:208-314 | at every moment of every interleaving an active owner is committed |
| `MembershipLocks.SeniorsUntouched` | src/memberships/roles-service.ts:208-314 | interleaved commands of members who are not owners leave owners and admins alone |
| `ReceptionClose.Workshop.Allocate` | src/receptions/close.ts:91-97 | the next number is one more than the highest of the tenant |
| `ReceptionClose.Workshop.FindOrder` | src/receptions/close.ts:51-56 | the order of a closed reception |
| `ReceptionClose.Workshop.CloseReception` | src/receptions/close.ts:38-119 | answer and tables after a close |
| `ReceptionClose.NextIsCount` | src/receptions/close.ts:91-97 | while numbers are dense the next one is the count of orders plus one |
| `ReceptionClose.CloseKeeps` | src/receptions/close.ts:38-119 | a close keeps numbers 1 to n per tenant and exactly one matching order per closed reception |
| `ReceptionClose.AnswerExact` | src/receptions/close.ts:38-71 | which closes are answered with an order: a closed reception, or an open one whose vehicle is there and admits its mileage |
| `ReceptionClose.RefusalExact` | src/receptions/close.ts:38-71 | exactly which refusal every other close gets: not found, not closable, mileage conflict, or a vehicle that is not there |
| `ReceptionClose.CloseExact` | src/receptions/close.ts:67-102 | a close of an open reception closes it, gives the vehicle its mileage, appends the one order with the next number, and changes nothing else |
| `ReceptionClose.CloseAgain` | src/receptions/close.ts:49-57 | closing a closed reception changes nothing, answers with its order, and never fails for want of one |
| `ReceptionClose.CloseTwice` | src/receptions/close.ts:49-57 | a close that was answered is answered the same way again |
| `ReceptionLocks.CommitIsClose` | src/receptions/close.ts:72-119 | what a transaction commits is an atomic close of the tables at that moment |
| `ReceptionLocks.StepKeeps` | src/receptions/close.ts:38-119 | every step of every transaction keeps tables, locks and what was read under them |
| `ReceptionLocks.EndsLikeClose` | src/receptions/close.ts:38-119 | whenever a close ends, refusals included, its outcome and effect are those of an atomic close at that moment |
| `ReceptionLocks.ClosesSafe` | src/receptions/close.ts:38-119 | at every moment of every run numbers are 1 to n per tenant, closed receptions and orders match one to one, and one reception is always answered with the same order |
| `ReceptionLocks.NothingGoesBack` | src/receptions/close.ts:67-83 | during a run no vehicle mileage decreases and no order changes or disappears |
| `ReceptionLocks.NoDeadlock` | src/receptions/close.ts:61-75 | while some close has not ended one of them can go on |

## Left out

- SQL text, row level security, triggers and grants: documented contracts appear as guarded steps; the database triggers that
  repeat the owner and numbering rules are not modelled, since the proofs do without them.
- Network, storage and HTTP: provider calls, the Fastify wiring, logging and rate limits; their results are events or inputs.
- PDF, JPEG and WebP inspection, sample tables of non-fragmented video, the top-level walk over a video file, and the
  bounded read from storage.
- The media purger, whose protocol lives in SQL functions.
- The encryption of gallery cursors: a cursor stands for its position; `position` and the time limits of cursors are not modelled.
- The deadline of the order gallery and the read budgets of retention locks, which only add refusals.
- Coverage, alerts and status texts of the reconciliation report. A reference is any function of what it refers to; whether a
  key was rechecked is decided by the key, so there collisions of the keyed hash are assumed away.
- The locale order of samples is any strict total order; `held` absent and `held` false are one value in sample identity, as in the code.
- Membership invitations and the account revocation handler, which also change memberships: the runs of `Memberships` and
  `MembershipLocks` contain role and status commands only.
- Row locks on memberships: the owner-set lock already excludes every other writer of the rows that the commands read.
- Order ids of service orders: an order is known by its tenant and number. Timestamps, history and audit rows of a close.
- Numbers beyond 2^53: sizes and offsets are unbounded integers where the code checks that they are safe integers.
- Stack nodes of the XML reader are values; the reader changes them in place, which nothing else can observe.
- `RetentionLocks.ProofHolds`: the other writers of the link graph are taken to hold the asset or reception lock they are
  documented to hold; writers outside that protocol are not part of the model.
- `InvitationLease.DeliverySafe`: assumes clocks of equal rate, a request that starts less than two seconds after the decision
  to send and ends by its timeout, and that a worker that dies sends nothing more.
- `CrcPolynomial.RegisterIsRemainder`: speaks of the register before the final complement.
