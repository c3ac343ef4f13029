# A Dafny model of the semver C library

This project models the core of a small C library for SemVer 2.0.0 version numbers. The core has three parts:

- **The validator** `semver_str_validator`. It is a re2c-generated automaton that accepts a NUL-terminated string and reports which sections it holds: the primary numbers, a pre-release, build meta-data.
- **The version record** `struct semver_`. Its operations are:
  - the getters and setters;
  - `semver_set_pr_str`, which tokenises the pre-release string with `strtok` into identifiers of at most 20 characters;
  - `semver_set_bmd_str` and `semver_get_bmd_str`;
  - `semver_get_pr_str`, which joins the identifiers back;
  - `semver_to_str`, which sizes a buffer and prints the version;
  - `semver_str_to_semver`, which validates a string and reads it into a fresh record.
- **The precedence comparison** `semver_compare`, with its helpers `pre_release_cmp`, `is_numeric`, `cmp_numeric`, `cmp_lexical` and `get_num_identifiers`.

The modules are:

- `Text`: characters, split and join on a separator, C strings, and decimal notation.
- `Grammar`: the declarative grammar of the re2c template. It is stated as a `Layout` of up to three sections, with `Compose` and `Parse` between layouts and text.
- `Scanner`: the automaton, state by state. It proves that the automaton accepts exactly the grammar's language (`ScanAgrees`, `ScanAcceptsIff`).
- `Vectors`: the valid and invalid strings of the unit tests, run through the automaton.
- `Versions`: the version as a value. It covers:
  - the tokeniser;
  - the text `semver_to_str` writes and the buffer it allocates;
  - the extraction `semver_str_to_semver` performs;
  - the two round trips between them.
- `Precedence`: the ordering that `semver_compare` and its comments promise (section 11 of SemVer 2.0.0). It proves antisymmetry, transitivity and the tie rules, and holds the identifier loop of `pre_release_cmp` as a method.
- `SemverApi`: the record as a class `Semver` whose methods update its fields in place.
- `ConversionVectors`: the unit tests' conversions and the precedence example of SemVer 2.0.0.
- `AsWritten`: the parts of `src/semver.c` whose code departs from what its comments and header promise. Each part is modelled as written, with the input that shows the difference (see "## Findings"). The rest of the model uses the corrected behaviour.

Where the code and the prose documentation disagree, the model follows the code:

- The validator has no leading-zero rule: `01.0.0` and `1.0.0-01` are accepted (`Vectors.LeadingZerosAccepted`).
- `semver_to_str` reports the size of the buffer it allocated in `*po_len`, not the length of the text. The header calls this value "the length of the semver string".
- `semver_get_pr_str` of a version without a pre-release returns the empty string: the code allocates and writes a single NUL.
- The header says that `semver_set_pr_str` and `semver_set_bmd_str` fail on an invalid string (include/semver.h:164, 178-179). The code does not check validity (src/semver.c:231, 292), so both setters return 0 and store the string. `AsWritten.InvalidBuildStored` sets the build meta-data "!@#" and `AsWritten.InvalidPreReleaseStored` sets the pre-release "a!b". Each returns 0, and `semver_to_str` then renders a text that the validator rejects.

## Model

| member | source | states |
|---|---|---|
| Scanner.Validate | src/semver.c:716-1583 | a NULL string gives -1; otherwise 0 exactly when the text up to its NUL is in the SemVer grammar of the re2c template, with the three section flags written only on success and left alone on rejection |
| Scanner.StrIsValid | src/semver.c:547-557 | 0 exactly for a non-NULL string in the grammar, 1 otherwise |
| Scanner.ScanAgrees | src/semver.c:716-1583 | the automaton's verdict on every string equals the grammar's: rejected, or accepted with the flags of the sections present |
| Scanner.ScanAcceptsIff | src/semver.c:1621-1660 | the automaton accepts a string exactly when it is a SemVer string of the template's grammar, and every accepted string has the primary part |
| Scanner.ScanCompose | src/semver.c:1621-1660 | a text composed from a valid primary, pre-release and build section is accepted with exactly those section flags, and rejected when a section is malformed (for texts whose sections can be told apart) |
| Scanner.ScanRejectsAfter | src/semver.c:777-803 | once the automaton reaches a reject label, no continuation of the string is accepted |
| Scanner.RunAppend | src/semver.c:740-1573 | running the automaton over a concatenation is running it over each part in turn |
| Grammar.IsSemVerIff | src/semver.c:1623-1653 | a string is in the template's language exactly when its parse into primary, pre-release and build sections is well formed |
| Grammar.ParseCompose | src/semver.c:1623-1653 | a well-formed layout reads back from its text unchanged |
| Grammar.ComposeParse | src/semver.c:1623-1653 | every string is the text of its own parse |
| Grammar.SectionStart | src/semver.c:1623-1625 | the primary part ends at the first '-' or '+', and nothing before it is a section mark |
| Vectors.AcceptsVersionText | test/test/test_semver.c:21-46 | three digit runs joined by dots, followed by any dot-separated identifier lists for pre-release and build meta-data, are accepted with the matching flags |
| Vectors.RejectsBadBuild | test/test/test_semver.c:48-57 | a build section with a field outside [0-9A-Za-z-]+ is rejected |
| Vectors.ValidString1 | test/test/test_semver.c:23 | "1.0.8" is accepted with neither section flagged |
| Vectors.ValidString2 | test/test/test_semver.c:24 | "1.23.7" is accepted with neither section flagged |
| Vectors.ValidString3 | test/test/test_semver.c:25 | "2.0.0-alpha.123.abc" is accepted with a pre-release flagged |
| Vectors.ValidString4 | test/test/test_semver.c:26 | "2.0.0-alpha.123.abc+build.acebfde1284" is accepted with a pre-release and build meta-data flagged |
| Vectors.ValidString5 | test/test/test_semver.c:27 | "1.0.0-alpha" is accepted with a pre-release flagged |
| Vectors.ValidString6 | test/test/test_semver.c:28 | "1.0.0-alpha.1" is accepted with a pre-release flagged |
| Vectors.ValidString7 | test/test/test_semver.c:29 | "1.0.0-0.3.7" is accepted with a pre-release flagged |
| Vectors.ValidString8 | test/test/test_semver.c:30 | "1.0.0-x.7.z.92" is accepted with a pre-release flagged |
| Vectors.ValidString11 | test/test/test_semver.c:33 | "1.0.0-beta.2" is accepted with a pre-release flagged |
| Vectors.ValidString12 | test/test/test_semver.c:34 | "1.0.0-beta.11" is accepted with a pre-release flagged |
| Vectors.ValidString13 | test/test/test_semver.c:35 | "1.0.0-rc.1" is accepted with a pre-release flagged |
| Vectors.ValidString14 | test/test/test_semver.c:36 | "1.0.0-rc.1+build.1" is accepted with a pre-release and build meta-data flagged |
| Vectors.ValidString15 | test/test/test_semver.c:37 | "1.0.0-rc.1+build.1-b" is accepted with a pre-release and build meta-data flagged |
| Vectors.ValidString16 | test/test/test_semver.c:38 | "1.0.0" is accepted with neither section flagged |
| Vectors.ValidString17 | test/test/test_semver.c:39 | "1.0.0+0.3.7" is accepted with build meta-data flagged |
| Vectors.ValidString18 | test/test/test_semver.c:40 | "1.3.7+build" is accepted with build meta-data flagged |
| Vectors.ValidString19 | test/test/test_semver.c:41 | "1.3.7+build.2.b8f12d7" is accepted with build meta-data flagged |
| Vectors.ValidString20 | test/test/test_semver.c:42 | "1.3.7+build.11.e0f985a" is accepted with build meta-data flagged |
| Vectors.ValidString21 | test/test/test_semver.c:43 | "1.3.7+build.11.e0f9-85a" is accepted with build meta-data flagged |
| Vectors.ValidString22 | test/test/test_semver.c:44 | "1.0.0+build-acbe" is accepted with build meta-data flagged |
| Vectors.ValidString23 | test/test/test_semver.c:45 | "2.0.0+build.acebfde1284-alpha.123.abc" is accepted with build meta-data flagged |
| Vectors.InvalidShortStrings | test/test/test_semver.c:50-53 | "a.b.c", "1", "1.0.0b" and "1.0" are rejected |
| Vectors.InvalidBracketString | test/test/test_semver.c:54 | a build identifier holding [\]^_` is rejected |
| Vectors.InvalidTrailingDotString | test/test/test_semver.c:55 | "1.0.0+build-acbe." is rejected |
| Vectors.InvalidPunctuationString | test/test/test_semver.c:56 | "1.0.0+build.!@#$%" is rejected |
| Vectors.LeadingZerosAccepted | src/semver.c:1623-1624 | "01.0.0" and "1.0.0-01" are accepted with their flags: the template has no leading-zero rule |
| Versions.ToCInt | src/semver.c:86-112 | a uint32_t returned as int: congruent modulo 2^32, within the int range, and non-negative exactly below 2^31 |
| Versions.Tokens | src/semver.c:262-277 | the tokens strtok hands out are non-empty and contain no '.' |
| Versions.TokensOfDotList | src/semver.c:262-277 | on a dot-separated identifier list, strtok's tokens are exactly the '.'-separated fields |
| Versions.NumIdentifiers | src/semver.c:686-707 | 0 for the empty string, otherwise the number of '.'-separated fields |
| Versions.SetPrIdentifiers | src/semver.c:218-281 | for a valid pre-release string of identifiers of at most 20 characters, with or without its NUL, the stored identifiers are its fields, joining them gives the string back, and get_num_identifiers counts exactly the tokens strtok yields |
| Versions.Clip | src/semver.c:275 | strndup(token, 20) keeps a prefix of at most 20 characters, and keeps the whole of a shorter token |
| Versions.Clipped | src/semver.c:146 | every identifier is cut as strncat with a limit of 20 cuts it, and no identifier is lost |
| Versions.JoinLength | src/semver.c:126-133 | the joined identifiers are as long as the identifiers together plus one dot between each pair |
| Versions.RenderFits | src/semver.c:318-345 | the text semver_to_str writes, with its NUL, fits in the buffer it sizes |
| Versions.ScanNumber | src/semver.c:431-433 | a field read by sscanf is its decimal value whenever that value fits in 32 bits |
| Versions.Render | src/semver.c:351-386 | the text semver_to_str writes, with the numbers printed as unsigned: MAJOR.MINOR.PATCH, then '-' and the identifiers joined by '.', then '+' and the build; Versions.ExtractRender reads it back |
| Versions.Extract | src/semver.c:391-471 | what semver_str_to_semver reads from a valid string: the three numbers, the identifiers from the '-' after the numbers up to the '+', cut at '.', and the build cut to 20; Versions.RenderExtract prints it back |
| Versions.ExtractRender | src/semver.c:305-471 | a version whose identifiers and build text are valid (build at most 20 characters) prints as a valid string that reads back as the same version |
| Versions.RenderExtract | src/semver.c:305-471 | a valid string without leading zeros whose numbers fit in 32 bits and whose build part has at most 20 characters is read and printed back unchanged |
| Versions.PrimaryTextFields | src/semver.c:352-357 | the numbers print as three decimal fields separated by dots, which form a valid primary part |
| Precedence.NumCmp | src/semver.c:673-679 | the sign of the numeric identifiers' value difference: negative, zero or positive as the first value is below, equal to or above the second |
| Precedence.LexCmp | src/semver.c:681-684 | -1, 0 or 1, and 0 exactly for equal identifiers |
| Precedence.IdCmp | src/semver.c:598-608 | 0 exactly when the identifiers rank the same (equal, or numeric with equal values), and a non-numeric identifier ranks above a numeric one |
| Precedence.ListCmp | src/semver.c:588-631 | 0 exactly when the lists have equal length and rank the same position by position |
| Precedence.ReleaseCmp | src/semver.c:487-505 | -1, 0 or 1, and 0 exactly when major, minor and patch are all equal |
| Precedence.PreReleaseCompare | src/semver.c:563-632 | the loop computes the pre-release precedence: a release above any pre-release, the first differing identifier deciding, and a longer list above its prefix |
| Precedence.Cmp | src/semver.c:473-523 | semver_compare as the header intends: -1, 0 or 1, the numbers first and then the pre-release identifiers; its laws are CmpAntisym, CmpTrans, CmpRefl and CmpZero |
| Precedence.CmpAntisym | include/semver.h:219-225 | comparing the other way round negates the result |
| Precedence.CmpTrans | include/semver.h:219-225 | precedence is transitive |
| Precedence.CmpRefl | include/semver.h:219-225 | a version ranks equal to itself |
| Precedence.CmpZero | include/semver.h:219-225 | two versions rank equal exactly when their numbers agree and their identifiers pair up with equal rank |
| Precedence.CmpIgnoresBuild | include/semver.h:244-246 | build meta-data never changes the result |
| Precedence.PreReleaseBelowRelease | src/semver.c:577-581 | with equal numbers, a version with a pre-release precedes the one without |
| Precedence.ListCmpFirstDifference | src/semver.c:588-613 | the first position whose identifiers differ decides the comparison |
| Precedence.ListCmpPrefix | src/semver.c:616-629 | when every shared position ties, the longer list ranks higher |
| Precedence.LexCmpAntisym | src/semver.c:681-684 | strcmp's order negates when its arguments swap |
| Precedence.LexCmpTrans | src/semver.c:681-684 | strcmp's order is transitive |
| Precedence.IdCmpAntisym | src/semver.c:605-608 | the identifier comparison negates when its arguments swap |
| Precedence.IdCmpTrans | src/semver.c:605-608 | the identifier comparison is transitive |
| Precedence.ListCmpAntisym | src/semver.c:593-631 | the identifier-list comparison negates when its arguments swap |
| Precedence.ListCmpTrans | src/semver.c:593-631 | the identifier-list comparison is transitive |
| SemverApi.CountIdentifiers | src/semver.c:686-707 | the counting loop returns get_num_identifiers' answer for the first len characters |
| SemverApi.SplitFields | src/semver.c:440-457 | the tup_end walk cuts the pre-release text into exactly its '.'-separated fields |
| SemverApi.Tokenise | src/semver.c:262-277 | the strtok loop, run once per token, yields exactly the tokens, each clipped to 20 characters |
| SemverApi.JoinIdentifiers | src/semver.c:364-376 | the strncat loop appends the identifiers with one '.' between each pair: the result is their join on '.' |
| SemverApi.Semver.constructor | src/semver.c:60-72 | a new record is 0.0.0 with no identifiers and no build meta-data |
| SemverApi.Semver.GetMajor | src/semver.c:86-93 | the major number as a C int; equal to it below 2^31 |
| SemverApi.Semver.GetMinor | src/semver.c:95-102 | the minor number as a C int; equal to it below 2^31 |
| SemverApi.Semver.GetPatch | src/semver.c:104-112 | the patch number as a C int; equal to it below 2^31 |
| SemverApi.Semver.SetMajor | src/semver.c:184-194 | status 0; the major number is replaced and nothing else changes |
| SemverApi.Semver.SetMinor | src/semver.c:196-205 | status 0; the minor number is replaced and nothing else changes |
| SemverApi.Semver.SetPatch | src/semver.c:207-216 | status 0; the patch number is replaced and nothing else changes |
| SemverApi.Semver.SetPrStr | src/semver.c:218-281 | NULL gives 1 and changes nothing; length 0 gives 1 and leaves no identifiers; otherwise 0, and the identifiers become strtok's tokens of the first len characters, each cut to 20 |
| SemverApi.Semver.SetBmdStr | src/semver.c:283-303 | NULL gives 1 and changes nothing; otherwise 0, and the build meta-data becomes the string up to its NUL, cut to len characters |
| SemverApi.Semver.GetPrStr | src/semver.c:114-158 | status 0; the identifiers, each cut to 20, joined by '.'; the reported length is the identifiers' total plus one per dot, and equals the text's length when no identifier is longer than 20 |
| SemverApi.Semver.GetBmdStr | src/semver.c:160-182 | status 0; the stored build meta-data, with its length when present and the length left as given when absent |
| SemverApi.Semver.ToStr | src/semver.c:305-389 | status 0; the text is the printed version, the reported length is the size of the buffer, and text plus NUL fit in it |
| SemverApi.Semver.BufferSize | src/semver.c:318-345 | the buffer size semver_to_str computes: 30 digits, 3 dots, the identifiers, a hyphen, their dots, '+' and the build text, and a NUL |
| SemverApi.Semver.Compare | include/semver.h:219-234 | status 0 and the precedence result -1, 0 or 1 of SemVer 2.0.0 |
| SemverApi.Semver.StrToSemver | src/semver.c:391-471 | 0 exactly for a non-NULL valid string, and then a fresh record holding the numbers, identifiers and build meta-data the string spells; 1 and no record otherwise |
| SemverApi.ToStrIsValid | src/semver.c:305-389 | printing a version with valid identifiers and build text gives a string the validator accepts, with the flags of the sections present |
| ConversionVectors.ToStrVector | test/test/test_semver.c:223-249 | 5.4.3 with rc.3.2.1 and sha.5114f85 prints as "5.4.3-rc.3.2.1+sha.5114f85", within its buffer |
| ConversionVectors.StrToSemverVector | test/test/test_semver.c:276-295 | "5.4.3-rc.3.2.1+sha.5114f85" is valid, reads as that version, and prints back unchanged |
| ConversionVectors.SetPrStrVector | test/test/test_semver.c:243 | setting "rc.3.2.1" with its NUL stores the identifiers rc, 3, 2, 1 |
| ConversionVectors.SetGetPrStrVector | test/test/test_semver.c:119-149 | setting "1.1.2" and reading it back gives "1.1.2" with length 5 |
| ConversionVectors.SpecificationExample | src/semver.c:588-625 | 1.0.0-alpha < 1.0.0-alpha.1 < 1.0.0-alpha.beta < 1.0.0-beta < 1.0.0-beta.2 < 1.0.0-beta.11 < 1.0.0-rc.1 < 1.0.0 |
| ConversionVectors.BuildIgnoredVector | include/semver.h:244-246 | 1.0.0+a and 1.0.0+b rank equal |
| AsWritten.ReleaseDiffSign | src/semver.c:487-496 | below 2^31 the sign of the unnormalised difference is the intended comparison |
| AsWritten.ReleaseDiffWrongSign | src/semver.c:488-496 | 3000000000.0.0 against 0.0.0 gives a negative difference, but it ranks higher |
| AsWritten.ReleaseDiffNotNormalised | src/semver.c:494-503 | 5.0.0 against 3.0.0 writes 2, where the header promises 1 |
| AsWritten.CompareBasicVector | test/test/test_semver.c:183-221 | 5.4.3 against 4.5.6 writes 1, both as written and as intended |
| AsWritten.Strtol | src/semver.c:665 | strtol on a run of digits gives its decimal value, saturated at LONG_MAX |
| AsWritten.IsNumericAsWritten | src/semver.c:663-671 | the empty identifier is not numeric; a run of digits that does not start with '0' is numeric exactly when its value, saturated at LONG_MAX, is not a multiple of 2^32 |
| AsWritten.CmpNumericAsWritten | src/semver.c:673-679 | two runs of digits up to LONG_MAX compare by the difference of their values cut to a 32-bit int |
| AsWritten.IdCmpAsWritten | src/semver.c:605-608 | equal identifiers tie; two identifiers that are not numeric as written tie only when they are equal |
| AsWritten.IsNumericAgrees | src/semver.c:663-671 | a run of digits worth less than 2^31 is numeric both as written and as intended, with the same value |
| AsWritten.IdCmpAgreesOnNumbers | src/semver.c:673-679 | two numeric identifiers below 2^31 compare the same way as written and as intended |
| AsWritten.NumericPrefixCounts | src/semver.c:663-671 | "1a" counts as numeric as written and ranks below "2", where it should rank above |
| AsWritten.WideNumberNotNumeric | src/semver.c:663-671 | "4294967296" is all digits, yet (int)strtol gives 0, so as written it is not numeric |
| AsWritten.WideNumberRanksLow | src/semver.c:673-679 | "4294967297" reads as the int 1, so as written it ranks below "2"; as intended it ranks above |
| AsWritten.NumbersAsWritten | src/semver.c:663-679 | two runs of digits without a leading '0', up to LONG_MAX and not multiples of 2^32, are numeric as written and compare by their values cut to int |
| AsWritten.PreLoopAsWritten | src/semver.c:593-614 | whatever the number of rounds, any answer the loop gives is the non-zero comparison of the first two identifiers |
| AsWritten.PreReleaseCmpAsWritten | src/semver.c:563-632 | when either version has no identifiers the answer is the intended one; otherwise any answer comes from the first pair of identifiers |
| AsWritten.PreLoopStalls | src/semver.c:593-614 | when the first identifiers tie, the loop as written never returns |
| AsWritten.PreLoopFirstRound | src/semver.c:593-614 | when the first identifiers differ, the loop as written returns their comparison in its first round |
| AsWritten.AlphaAgainstAlpha1 | src/semver.c:593-631 | 1.0.0-alpha against 1.0.0-alpha.1 never finishes as written; it should give -1 |
| AsWritten.CompareAsWritten | src/semver.c:473-523 | without identifiers the call always succeeds; a non-zero status leaves *po_result untouched, and so does every decision made by the pre-release identifiers |
| AsWritten.CompareAsWrittenReleases | src/semver.c:473-523 | without identifiers and below 2^31 the call as written succeeds with the right sign |
| AsWritten.PreReleaseAsStatus | src/semver.c:510-513 | 1.0.0-alpha against 1.0.0 as written returns status -1 and never writes the result |
| AsWritten.PrStrLengthAsWritten | src/semver.c:126-133 | the reported length equals the length of the joined text, except for exactly two identifiers, where it is one short |
| AsWritten.PrStrLengthAsWrittenOff | src/semver.c:126-142 | the reported length as written is right except for exactly two identifiers, where it is one short |
| AsWritten.PrStrLengthTwoIds | src/semver.c:126-142 | "rc.1" is reported 3 characters long |
| AsWritten.LastIndex | src/semver.c:438-439 | strrchr finds the last occurrence, with none after it |
| AsWritten.PreIdsAsWritten | src/semver.c:436-457 | without a '+' or without a '-' there is no defined result, and neither is there when the last '-' is right before the last '+' (zero identifiers counted, then one written); the identifiers it extracts, joined, are non-empty and never contain a '-' |
| AsWritten.PreIdsAsWrittenAgrees | src/semver.c:436-457 | with a non-empty pre-release, a build section and no '-' inside the identifiers, the identifiers are extracted correctly as written |
| AsWritten.HyphenInIdentifier | src/semver.c:438-457 | from "1.0.0-a-1+b" the code as written extracts the identifier "1" instead of "a-1" |
| AsWritten.NoBuildSection | src/semver.c:438-443 | in "1.0.0-alpha" there is no '+', so the end pointer as written is NULL |
| AsWritten.HyphenInBuild | src/semver.c:438-443 | in "1.0.0-rc.1+build.1-b" the last '-' lies after the '+', so the pre-release length as written is negative and no identifiers are extracted; the intended reading gives rc, 1 |
| AsWritten.InvalidBuildStored | src/semver.c:283-303 | setting the build meta-data "!@#" returns 0 although the text is invalid; the rendered "0.0.0+!@#" is rejected by the validator |
| AsWritten.InvalidPreReleaseStored | src/semver.c:218-281 | setting the pre-release "a!b" returns 0 although the text is invalid; the rendered "0.0.0-a!b" is rejected by the validator |
| AsWritten.RenderAsWritten | src/semver.c:352-357 | the text as written starts with '-' exactly when the major number is 2^31 or more |
| AsWritten.RenderAsWrittenAgrees | src/semver.c:352-357 | below 2^31 "%d" prints the intended text |
| AsWritten.NegativeMajor | src/semver.c:352-357 | 2147483648.0.0 prints with a leading '-', which the validator rejects |

## Left out

- Memory management is not modelled: malloc and free, allocation failures, and `semver_destroy`. NULL record pointers and NULL out-pointers are not modelled either. A record is a Dafny object, so the status-1 paths for them do not arise.
- The `semver_str_compare` and `semver_is_valid` stubs are not modelled. They return 1 without doing anything.
- `src/semver_parser.c` and the unit-test harness are not part of this model, beyond the test vectors above.
- The validator's length argument is not modelled. The generated code never consults its limit: `YYFILL` is empty. The automaton reads up to the NUL, and so do Scanner.Validate, Scanner.StrIsValid and SemverApi.Semver.StrToSemver.
- The `uint16_t` and `uint8_t` widths of lengths and identifier counts are not modelled. Lengths and counts are unbounded naturals. SemverApi.Semver.SetPrStr's only width precondition is a length below 2^16.
- SemverApi.Semver.SetPrStr: requires that strtok yields as many tokens as get_num_identifiers counts dots. When the string has empty fields ("a..b", ".a"), the code leaves identifier slots unset, which is undefined behaviour. It also takes the count from `pr_str` instead of the duplicated copy, so a NUL before len gives the same mismatch.
- SemverApi.Semver.GetPrStr: the reported length counts the identifiers in full, while the text holds each one cut to 20. The two agree whenever no identifier is longer than 20 (the third ensures). SetPrStr cuts every identifier to 20, but StrToSemver stores the extracted identifiers uncut. After StrToSemver has read an identifier longer than 20, the reported length is therefore larger than the length of the text.
- SemverApi.Semver.ToStr: the reported length is the buffer size, as the code does it. The header calls it the length of the string.
- SemverApi.Semver.StrToSemver: the sscanf reading is modelled only by its value: the decimal value, saturated at LONG_MAX and taken modulo 2^32. Behaviour beyond that range is implementation-defined and left out.
- SemverApi.Semver.StrToSemver: the extracted pre-release identifiers are not cut to 20, as in the code. The build meta-data is cut to 20, as `strnlen(…, MAX_ID_STR_LEN)` does.
- Precedence.NumCmp: the ranking uses the identifiers' full values. As written, `cmp_numeric` compares the values after the cast to int (src/semver.c:675-676), so numbers of 2^31 and above misorder: "4294967297" ranks below "2" (AsWritten.WideNumberRanksLow). It also ignores the signed overflow of `num_a - num_b`. The values as written appear in AsWritten.CmpNumericAsWritten.
- Precedence.LexCmp: answers -1, 0 or 1. C leaves strcmp's magnitude unspecified, so only its sign is modelled. As written, `cmp_lexical` returns strcmp's value unchanged (src/semver.c:681-684), `pre_release_cmp` returns it as is (src/semver.c:605-611), and `semver_compare` returns it as its status (src/semver.c:513). AsWritten.IdCmpAsWritten and AsWritten.CompareAsWritten therefore report only the sign of that status where the library passes on strcmp's value.

## Findings

| source | as written | input that shows it | evidently intended | confidence | as-written member | corrected member |
|---|---|---|---|---|---|---|
| src/semver.c:488-503 | the fields are subtracted as uint32_t, stored in an int, and the first non-zero difference is written as the result | 5.0.0 against 3.0.0 writes 2; 3000000000.0.0 against 0.0.0 writes a negative number | -1, 0 or 1, by the fields' values (include/semver.h:223-225) | not executed | AsWritten.ReleaseDiffNotNormalised, AsWritten.ReleaseDiffWrongSign | Precedence.ReleaseCmp |
| src/semver.c:593-614 | the loop never advances curr_identifier; its a_num != b_num tie-break is empty | 1.0.0-alpha against 1.0.0-alpha.1 compares "alpha" with "alpha" forever | advance to the next identifier; a longer list ranks higher once all shared positions tie | not executed | AsWritten.AlphaAgainstAlpha1, AsWritten.PreLoopStalls | Precedence.PreReleaseCompare |
| src/semver.c:510-513 | pre_release_cmp's result is returned as the status and *po_result is never written | 1.0.0-alpha against 1.0.0 returns -1 (failure) with the result untouched | status 0 and the comparison written to *po_result | not executed | AsWritten.PreReleaseAsStatus | SemverApi.Semver.Compare |
| src/semver.c:663-671 | is_numeric counts an identifier as numeric when (int)strtol of it is non-zero or its first character is '0', whatever follows | "1a" is numeric, so it ranks below "2"; "4294967296" is all digits but not numeric, because (int)strtol gives 0 | numeric means digits only; non-numeric ranks above numeric | not executed | AsWritten.NumericPrefixCounts, AsWritten.WideNumberNotNumeric | Precedence.IdCmp |
| src/semver.c:130-133 | the dots are counted only for more than two identifiers | the identifiers rc, 1 give length 3 and a 4-byte buffer for "rc.1" plus NUL | one dot between each pair of identifiers | not executed | AsWritten.PrStrLengthTwoIds, AsWritten.PrStrLengthAsWrittenOff | SemverApi.Semver.GetPrStr |
| src/semver.c:438-443 | the pre-release is located with strrchr for '-' and for '+' | "1.0.0-a-1+b" yields the identifier "1"; "1.0.0-alpha" has no '+' and the end pointer is NULL; in "1.0.0-rc.1+build.1-b" the last '-' follows the '+', so `end - curr_tup_start` is -9; as the `uint16_t` length of get_num_identifiers it becomes 65527, the count reads past the end of the string, and the copy loop never runs, so every counted identifier slot stays unset | the pre-release runs from the first '-' after the primary part to the '+' or the end | not executed | AsWritten.HyphenInIdentifier, AsWritten.NoBuildSection, AsWritten.HyphenInBuild | SemverApi.Semver.StrToSemver |
| src/semver.c:352-357 | the uint32_t fields are printed with "%d" | 2147483648.0.0 prints as "-2147483648.0.0", which the validator rejects | "%u" | not executed | AsWritten.NegativeMajor | SemverApi.Semver.ToStr |
