# Cordial, modelled and proved in Dafny

A model of the parts of the Cordial repository where the code is hard to see through, and proofs of
what they are for. `dafny verify dfyconfig.toml` checks all of it.

| file | what it models |
|---|---|
| Expansion.dfy | the scanner for `${...}`: a hand-written loop refines a token grammar |
| GoText.dfy, Utf8.dfy | the operations on text that it calls, and what UTF-8 is |
| Replacement.dfy, Strays.dfy, Preservation.dfy | folding key values back into references: the loop, when it fails, when it keeps the meaning |
| ConfigStore.dfy | the settings around it |
| Crypto.dfy, KeyText.dfy, KeyLines.dfy, KeyFiles.dfy | encoded secrets, from the bits of the cipher text to the expanded setting |
| Entities.dfy, Probes.dfy | unrolling the hierarchy of managed entities and probes |
| EntityFields.dfy, ProbeFields.dfy | what the unrolled ones hold, field by field |
| Listings.dfy, EntityOrder.dfy, ProbeOrder.dfy | which of several with one name stays |
| Schema.dfy | schema migration, with failures and crashes at every statement |
| Save.dfy | any number of processes saving one file through temporary files |
| Transform.dfy, TransformFields.dfy | transforming incident fields over maps iterated in any order, stage by stage and name by name |
| SingleLine.dfy | parsing and printing `$(name)` strings |
| SortKeys.dfy, Reporter.dfy, ReportOrder.dfy | sort keys of report rows, what becomes of every row, and in which order |
| CACerts.dfy | the CA bundle and its truststore while time passes |
| Load.dfy, Places.dfy | the search for configuration files, and which place wins |

Strings are sequences of bytes, a `char` standing for one byte. Code that works on state is a class or a
method with the loops of the source, proved against a function of its inputs; the results are lemmas
about those functions. Two protocols, schema migration and saving, are transition systems whose runs are
arbitrary sequences of events; the code is proved to take steps of them. Where Go leaves an order open,
the order is a parameter.

## What the proofs found

Some promises of the code or of its comments do not hold for all inputs. The model follows the code; each
point has a lemma, named with it, or is stated by a contract of the member concerned.

- `replaceStringParam` slices out of range on a value with a stray `}` before a later `${`, also when the
  `${` comes from an earlier replacement in a plain value (`FoldOneFailsIff`, `KeysFailIff`,
  `PlainKeysFailIff`), and rewrites the name of a reference that has a brace inside and an opener further on
  (`NestedChanges`). Nothing else breaks a value whose openers close (`KeepsOneIff`, `KeepsListsIff`).
- `AbbreviateHome` compares text, not path elements: `/home/ab` is abbreviated under the home directory
  `/home/a` and does not come back (`HomeRoundTrip`).
- `ReadKeyValues` compares the lengths of key and vector, but assigns the error to a shadowed variable, so
  that any lengths are accepted (`AnyLengthIff`).
- The comment at pkg/config/crypto.go:256 names RFC 5246; the padding used is that of section 6.3 of
  RFC 5652.
- `CreateWithBackup` without a backup name leaves an existing key file as it is; the comment says that it
  is overwritten. `ReadOrCreate` returns neither checksum nor error for a file that does not parse.
- A schema update without a check is applied twice when the process dies between its commit and the
  version (`AtMostOnceIff`); even with checks, such a crash loses the flag that asks for a reload
  (`FlagKeptIff`).
- `Write` returns no error when the rename fails and the temporary file can be removed
  (`NoErrorMeansSavedIff`, `NilWithoutSave`).
- The outcome of `Transform` depends on map order when renames feed one another or a stripped name still
  carries the prefix (`OrderFreeIff`, `StripFreeIff`). Its comment describes the exclude and include
  filters the other way round: a field stays when an exclude pattern matches it and no include pattern does.
- Sort keys of different rows coincide when a cell holds a NUL (`AloneIff`).
- `UpdateTable` drops earlier rows while no columns are set (`RunConservesIff`); `Render` leaves rows in
  place, so that the next `Prepare` emits them again (`RenderedTwice`).
- `Read` returns no configuration object when the first file cannot be read, against its comment
  (`NothingReadIff`), and does not report a required file as missing when there are no directories to search
  (`MissingReportedIff`); when merging, `Path` returns the lowest-priority file (`PathWhenMergingIff`).

## Model

| member | source | states |
|---|---|---|
| Expansion.ContentsByGrammar | pkg/config/internal.go:478-506 | What the brace scanner returns is fixed by the grammar alone: a name and its width exactly when the text begins with balanced contents between braces, `${}` eaten, an unclosed brace consumed by itself. |
| Expansion.GetContents | pkg/config/internal.go:478-506 | The scanning loop, with its depth counter and its skipping of escaped bytes, returns the specified name and width for every non-empty text. |
| Expansion.ClosingSound | pkg/config/internal.go:485-505 | A closing brace that is found closes a stretch that nests properly under the backslash rule. |
| Expansion.ClosingComplete | pkg/config/internal.go:485-505 | A properly nested stretch in front of a brace is the one the scan finds, so that closings are unique. |
| Expansion.NeverClosesIff | pkg/config/internal.go:485-505 | The scan reports failure exactly when no nested text followed by a brace begins there. |
| Expansion.BalancedIff | pkg/config/internal.go:485-505 | What nests properly, as a grammar: nothing; or any byte but braces and backslash, or a backslash with the byte it hides, or a nested text in braces, each followed by a nested text. |
| Expansion.UniqueSplit | pkg/config/internal.go:415-455 | Every text splits into characters, references, kept openers and eaten `${}` in exactly one way, independent of any mapping, and the pieces put together give the text. |
| Expansion.ExpandLoop | pkg/config/internal.go:415-455 | The loop with its lagging buffer and two indices yields the concatenation of the images of the tokens, for every mapping: mapped text is never scanned again. |
| Expansion.ExpandSteps | pkg/config/internal.go:425-447 | What stands at the start of a text decides: a byte that begins no opener stays, an opener that nothing closes stays, `${}` vanishes, a reference gives way to what its name is mapped to; the rest is expanded as it would be alone. |
| Expansion.TokensConcat | pkg/config/internal.go:420-454 | If every opener of the first text closes in it and no opener lies across the seam, the tokens of two texts joined are those of the first, then those of the second. |
| Expansion.ExpandConcat | pkg/config/internal.go:420-454 | Under the same condition expansion distributes over concatenation. |
| Expansion.ExpandPlain | pkg/config/internal.go:420-454 | A text without `${` expands to itself. |
| Expansion.OneReference | pkg/config/internal.go:425-436 | A text that is a single reference expands to what its name is mapped to. |
| Expansion.OpenerIs | pkg/config/internal.go:887-896 | An opener lies exactly where a text goes on with `${`. |
| GoText.TrimIff | pkg/config/internal.go:173-175 | Trimming leaves the one text without white space at its ends that lies between white space. |
| Utf8.RuneLenIff | pkg/config/crypto.go:263-266 | A rune is as long as the encoding of a Unicode scalar value that lies there; there is none exactly when no encoding does (section 3 of RFC 3629). |
| Utf8.ValidIff | pkg/config/crypto.go:263-266 | A text is accepted as UTF-8 exactly when it is the encodings of some Unicode scalar values, one after the other (section 4 of RFC 3629). |
| Utf8.RuneEndIs | pkg/config/internal.go:890 | Where an empty value is replaced: before each rune, a byte that begins no encoding counting as one. |
| Replacement.ReplaceStringParam | pkg/config/internal.go:880-917 | The rewriting loop over all replacements yields the folded value, or stops at a slice whose bounds are out of order. |
| Replacement.ReplaceOne | pkg/config/internal.go:893-913 | The inner loop with its growing and its shrinking text folds one key into one value. |
| Replacement.ReplaceSteps | pkg/config/internal.go:890 | All occurrences are replaced: the first gives way, the search begins anew behind it, and a text without one stays as it is. |
| Replacement.ReplaceEmpty | pkg/config/internal.go:890 | An empty value is found before every rune and at the end. |
| Replacement.FoldSteps | pkg/config/internal.go:887-913 | A value without an opener is replaced throughout; in one with references what stands before each of them is replaced, they themselves and what stands behind the last stay. |
| Replacement.FoldUnit | pkg/config/internal.go:898-912 | One turn of the loop, from the first opener and the first closing brace, wherever the two stand, as long as the brace is not before the byte in front of the opener. |
| Replacement.FoldKeysConcat | pkg/config/internal.go:883-914 | Replacements are applied one after the other, each to what the ones before it left. |
| Replacement.PlainKey | pkg/config/internal.go:889-908 | Every key without braces and backslashes makes a reference that satisfies the condition of these results. |
| Strays.FoldOneFailsIff | pkg/config/internal.go:887-913 | One replacement slices out of range exactly on a value with a stray brace: no opener before it that an earlier brace does not end, none right behind it, but one further on. The key and its value do not matter. |
| Strays.FoldClean | pkg/config/internal.go:893-913 | A replacement that succeeds leaves no stray brace in a value with openers. |
| Strays.KeysFailIff | pkg/config/internal.go:880-917 | On a value with an opener a list of replacements fails exactly when it is not empty and the value has a stray brace. |
| Strays.NextFailsIff | pkg/config/internal.go:887-913 | After a replacement in a plain value the next one fails exactly when the first kept a brace, with text that it kept directly behind it and a match further on. |
| Strays.PlainKeysFailIff | pkg/config/internal.go:880-917 | A list of replacements fails on a plain value exactly when the first of them that matches does this and is not the last. |
| Preservation.FoldOneKeeps | pkg/config/internal.go:887-913 | One replacement never fails on a plain or foldable value and does not change what it expands to while the key is bound to what was replaced; empty values and values with `$` and braces included. A foldable value stays so. |
| Preservation.FoldKeysKeep | pkg/config/internal.go:880-917 | Any list of replacements, in sequence, keeps what a foldable value expands to, and a plain one where it does not fail. |
| Preservation.NestedChanges | pkg/config/internal.go:893-913 | For every value whose openers close, without a stray brace but with an opener behind a brace inside the name of a reference, some replacement changes what it expands to. |
| Preservation.KeepsOneIff | pkg/config/internal.go:887-913 | A value whose openers all close keeps its meaning under every replacement exactly when it has no opener, or no stray brace and no opener behind a brace inside a name. |
| Preservation.KeepsListsIff | pkg/config/internal.go:880-917 | The same condition decides, for values with an opener, whether the meaning is kept under all lists of replacements. |
| Preservation.PlainKeepsIff | pkg/config/internal.go:880-917 | On a plain value a list of replacements keeps the meaning exactly when it does not fail in the way above. |
| Preservation.FoldOneFollows | pkg/config/internal.go:887-891 | A plain value folded with one key expands, when the key has changed since, to the value with all occurrences of the old key value replaced by the new one. |
| ConfigStore.Config.Set | pkg/config/internal.go:686-711 | Setting a string stores the rewritten value, or the value as it is without expansion, under its key and nothing else. |
| ConfigStore.Config.Delete | pkg/config/internal.go:681-683 | A deleted key reads as empty and as not set; all other keys stay as they are. |
| ConfigStore.SetThenGet | pkg/config/internal.go:686-697 | Setting a value that keeps its meaning under the list of replacements, that does not refer to its own key, the replacements naming other keys with plain values, and getting it gives the expansion of the value as written. |
| ConfigStore.SetThenChange | pkg/config/internal.go:686-697 | A plain value set with one replacement follows later changes of the key it was folded with. |
| ConfigStore.KeyReference | pkg/config/internal.go:306-317 | A reference to a key stands for its value, trimmed, and for nothing while it is not set, whether it is named behind `config:` or, having a dot and neither a colon nor a slash, as it is. |
| ConfigStore.OtherReference | pkg/config/internal.go:289-317 | Any other name is not looked up in the settings. |
| Crypto.CbcUndo | pkg/config/crypto.go:189-250 | CBC decryption undoes CBC encryption for every key, vector and text of whole blocks, for any bijective block cipher (section 6.2 of NIST SP 800-38A). |
| Crypto.XorBit | pkg/config/crypto.go:203 | Exclusive or: a bit of the result is set exactly when it differs in the two numbers. |
| Crypto.EncodedBlock | pkg/config/crypto.go:199-206 | Chaining: every block of an encoded secret is the cipher applied to that block of the padded secret with the bits flipped that are set in the block before it, in the vector for the first (section 6.2 of NIST SP 800-38A). |
| Crypto.VectorsTell | pkg/config/crypto.go:199-206 | Under one key two vectors give different encodings of any secret. |
| Crypto.PaddingBytes | pkg/config/crypto.go:196-202 | A secret is padded to whole blocks by at least one and at most sixteen bytes, each of which tells how many they are (section 6.3 of RFC 5652). |
| Crypto.UnpadPadded | pkg/config/crypto.go:252-268 | Unpadding what was padded returns the secret, and complains exactly if that is not UTF-8 (section 6.3 of RFC 5652). |
| Crypto.HexUndo | pkg/config/crypto.go:210-238 | Decoding upper-case hexadecimal digits returns the bytes (section 8 of RFC 4648). |
| Crypto.FromHexIff | pkg/config/crypto.go:238 | A character counts as a digit exactly when it is one of the sixteen, in either case. |
| Crypto.DigitsAscend | pkg/config/crypto.go:210-218 | The digits written stand in the order of their characters, upper case. |
| Crypto.HexFillAt | pkg/config/crypto.go:236-238 | With the error of the digits ignored, the buffer holds the bytes spelled before the first wrong character, and zeros from there on. |
| Crypto.DecodeInPlace | pkg/config/crypto.go:234-269 | Decoding in one buffer, digits in, decrypted over itself, trimmed, yields the specified result and errors for every input. |
| Crypto.DecodeEncode | pkg/config/crypto.go:189-269 | Decoding what was encoded, with or without the prefix, gives the secret exactly when it is valid UTF-8, and the UTF-8 error otherwise. |
| Crypto.DecodeOkIff | pkg/config/crypto.go:234-269 | Decoding any input yields a text exactly when that is UTF-8 and the input spells a cipher text of it with one to sixteen bytes behind it of which the last tells their number. |
| Crypto.DecodeErrors | pkg/config/crypto.go:234-269 | Which error any other input gives: not whole blocks, nothing at all, a padded text that is not UTF-8, or a wrong padding. |
| Crypto.EncodeLength | pkg/config/crypto.go:189-207 | The cipher text is the least whole number of blocks strictly longer than the secret. |
| Crypto.EncodeInjective | pkg/config/crypto.go:189-218 | No two secrets, whatever their bytes, have the same encoding under one key. |
| KeyText.ReadKeyValues | pkg/config/crypto.go:114-167 | The loop over the lines of a key file gives the specified key or error for every text. |
| KeyText.AnyLength | pkg/config/crypto.go:131-152 | A file with a key and a vector of whatever lengths is accepted: what is missing is zero and what is too much is dropped, because the error of the length check is shadowed. |
| KeyText.AnyLengthIff | pkg/config/crypto.go:131-152 | It yields exactly the key and the vector that it holds when these are 32 and 16 bytes long. |
| KeyText.ParseKeyString | pkg/config/crypto.go:89-167 | Every key that is printed is read back as it was. |
| KeyLines.Ignored | pkg/config/crypto.go:119-133 | A blank line, a comment or a salt makes no difference anywhere in a file. |
| KeyLines.WrongLine | pkg/config/crypto.go:119-158 | The first wrong line decides the error: text without `=`, an unknown name, or something else than hexadecimal digits for key or vector. |
| KeyLines.LaterLine | pkg/config/crypto.go:134-154 | A further key or vector takes the place of the one before, as far as it reaches. |
| KeyLines.BothThere | pkg/config/crypto.go:163-165 | A file that is accepted has a line for the key and one for the vector. |
| KeyLines.OverlayAt | pkg/config/crypto.go:142-152 | A copied key holds the bytes that were read, then those that were there before. |
| KeyLines.LinesSteps | pkg/config/crypto.go:118-120 | A text has the line up to its first line feed, then the lines of the rest; a last line feed ends the last line. |
| KeyLines.PrintedKey | pkg/config/crypto.go:89-92 | A printed key file has two lines: 64 upper-case digits behind `key=`, 32 behind `iv =`. |
| KeyFiles.HomeRoundTrip | pkg/config/files.go:97-127 | Abbreviating a clean path of a file and resolving it again leads back to it exactly when the path is not merely prefixed by the text of the home directory and does not look abbreviated already. |
| KeyFiles.HomeForms | pkg/config/files.go:97-127 | The home directory in front of a path becomes a tilde, and a tilde and a slash in front become the home directory; other paths are cleaned or left. |
| KeyFiles.KeyFileErrors | pkg/config/crypto.go:114-167 | A key file that is missing or does not parse neither encodes nor decodes and says why. |
| KeyFiles.ExpandEncoded | pkg/config/internal.go:229-272 | The loop over the key files of an encoded value yields what the first of them that decodes it gives, or nothing. |
| KeyFiles.SplitIff | pkg/config/internal.go:247 | Splitting yields the one list of parts without the separator that joined give the text. |
| KeyFiles.EncodedIff | pkg/config/internal.go:229-256 | The value is what one of the key files decodes it to that none before it decodes, and nothing when none does; decoded is the text behind the last colon, or what that stands for when it lacks the prefix. |
| KeyFiles.EncodedWithoutColon | pkg/config/internal.go:262-266 | Without a colon there are neither key files nor a value. |
| KeyFiles.SplitLast | pkg/config/internal.go:262-272 | Splitting at the last colon finds the fields whatever colons the first of them holds. |
| KeyFiles.SettingName | pkg/config/keyfiles.go:181-198 | The expandable form of a secret is one balanced reference naming the abbreviated key file and the prefixed digits. |
| KeyFiles.SecretRoundTrip | pkg/config/keyfiles.go:181-198 | Expanding the expandable form of any secret gives the secret back when it is valid UTF-8 and nothing otherwise, through brace scanning, the split, decryption and unpadding; only trimming and default options apply on top. |
| KeyFiles.SecretInContext | pkg/config/internal.go:137-172 | The same inside a longer text: what stands before and behind is expanded as it would be alone. |
| KeyFiles.SecretAmongKeys | pkg/config/internal.go:229-256 | A secret may name several key files: it comes back from the one that encoded it when none before that one decodes it, missing and broken files included. |
| KeyFiles.NotExpanded | pkg/config/internal.go:140-154 | Without expansion the value is the first of the input, the initial value and the default that is not empty. |
| KeyFiles.PlainOptions | pkg/config/internal.go:156-182 | A plain input stands for itself, an empty one for the initial value, trimmed if asked for, the default when nothing is left. |
| KeyFiles.ReferenceOptions | pkg/config/internal.go:156-182 | A single reference stands for what its name means, an encoded one for what it decodes to or for itself when decoding is turned off; as the initial value of an empty input too. |
| KeyFiles.KeyFileStore.ReadOrCreate | pkg/config/keyfiles.go:130-159 | A missing key file is created and readable and its checksum returned; an existing one is never changed; one that does not parse yields neither key nor error. |
| KeyFiles.KeyFileStore.CreateWithBackup | pkg/config/keyfiles.go:53-74 | With a backup name the old key moves aside and a new one takes its place; without one an existing key stays, where the comment promises to overwrite it. |
| KeyFiles.RollKeepsSecrets | pkg/config/keyfiles.go:53-74 | After rolling, the backup decodes everything the old key encoded, and the new file what the new key encodes. |
| Entities.RemoveDuplicates | pkg/geneos/utils.go:41-51 | The loop keeps the first item of every name, in order. |
| Entities.DedupFinds | pkg/geneos/utils.go:41-51 | Removing duplicates keeps what is found under every name. |
| Entities.DedupUnique | pkg/geneos/utils.go:41-51 | Afterwards every name occurs once, and only items that were there. |
| Entities.DedupAppend | pkg/geneos/utils.go:41-51 | Removing duplicates early makes no difference to the list that is appended to later. |
| EntityFields.DedupPlaces | pkg/geneos/utils.go:41-51 | What is left stands in its old order, each item the first of its name. |
| Entities.SamplerMap.AddTypes | pkg/geneos/utils.go:267-275 | Adding types inserts the keys of their enabled samplers and nothing else. |
| Entities.SamplerMap.DeleteTypes | pkg/geneos/utils.go:289-297 | Removing types deletes the keys of all their samplers and nothing else. |
| Entities.SamplerMap.DeleteSamplers | pkg/geneos/utils.go:299-303 | Removing samplers deletes the keys they refer to. |
| Entities.SamplerMap.AddOwn | pkg/geneos/utils.go:342-346 | An entity's own enabled samplers enter under the empty type. |
| Entities.ResolveGroup | pkg/geneos/utils.go:262-277 | A top-level group starts from what it has and adds its types. |
| Entities.ResolveSamplersFromGroup | pkg/geneos/utils.go:281-314 | A child starts from its own map or a copy of its parent's, loses what the parent removes, then gains what it adds. |
| Entities.ResolveEntitySamplers | pkg/geneos/utils.go:316-357 | The same for an entity, with its own samplers. |
| Entities.PushedListIsUp | pkg/geneos/utils.go:231-248 | Pushing lists down level by level, removing duplicates on the way, gives the list that looking up from the leaf gives. |
| Entities.PushedSamplersAreHandedDown | pkg/geneos/utils.go:244-250 | Pushing sampler sets down equals the recursion along the path. |
| Entities.UnrollEntityGroup | pkg/geneos/utils.go:217-260 | Unrolling mutated copies of a tree of groups yields for every enabled entity in it what the look-up along its path gives. |
| Entities.UnrollEntities | pkg/geneos/utils.go:186-214 | The same for the whole set-up; of several entities with one name the last stays. |
| Entities.HandedDownIff | pkg/geneos/utils.go:281-314 | A group hands a sampler down exactly when some group on the path adds it and no group from that one down to the immediate one removes it. |
| Entities.SamplerByPath | pkg/geneos/utils.go:316-357 | An unrolled entity has a sampler exactly when it adds it itself or inherits it in this sense; nothing but its own path matters. |
| Entities.AddsIff | pkg/geneos/utils.go:267-275 | With type names free of colons, a level adds `type:sampler` exactly when it names the type and that has the sampler enabled. |
| Entities.RemovesIff | pkg/geneos/utils.go:289-303 | And removes it exactly when it names the type and that has the sampler, enabled or not, or refers to the sampler itself. |
| Entities.EntityAddsIff | pkg/geneos/utils.go:342-356 | And an entity adds it exactly when it holds it as its own or its added types do. |
| EntityFields.SamplerIff | pkg/geneos/utils.go:217-357 | For type names without colons: an unrolled entity has `type:sampler` exactly when it holds the sampler itself, for the empty type, or names a type that has it enabled, or a group around it names that type and no group from there down to its own takes the sampler away. |
| EntityFields.AnySampler | pkg/geneos/utils.go:281-357 | The samplers of any unrolled entity, maps brought along by groups and entities included: such a map replaces what is handed down and is subject to the group around it. |
| Entities.NearestWins | pkg/geneos/utils.go:231-248 | Every attribute and every variable of an unrolled entity has one entry, from the entity if it defines it, else from the nearest group that does, at any depth. |
| EntityFields.AttributeIff | pkg/geneos/utils.go:217-248 | An unrolled entity has an attribute with a value exactly when it gives it that value first, or is silent about the name and the nearest group that is not gives it that value first; each name once. Outside all groups the lists stay as they are. |
| EntityFields.RestStays | pkg/geneos/utils.go:217-248 | Nothing else about an entity changes. |
| Entities.LeavesIff | pkg/geneos/utils.go:217-260 | The entities of a tree are the enabled ones all of whose groups are enabled. |
| Entities.ResultIff | pkg/geneos/utils.go:186-214 | The result has a name exactly when an enabled entity with no disabled enclosing group bears it, and holds that entity as its path gives it. |
| EntityOrder.LastStays | pkg/geneos/utils.go:186-260 | Of several entities with one name the one that stands last in the document stays: the entities of a level before its groups, these one after the other. |
| Probes.PushIsLookUp | pkg/geneos/utils.go:563-594 | Setting defaults from a level that is already looked up is one more step of the look-up. |
| Probes.InnermostWins | pkg/geneos/utils.go:579-582 | The looked-up value of a number is that of the innermost level that sets it, zero if none does. |
| ProbeFields.InnermostSecure | pkg/geneos/utils.go:579-582 | The looked-up secure flag is that of the innermost level that sets it, unset if none does. |
| Probes.UnrollProbeGroup | pkg/geneos/utils.go:128-183 | Unrolling mutated copies of a tree of groups yields the enabled probes of all three kinds in order, with their settings looked up from the probe outwards. |
| Probes.AppendEnabled | pkg/geneos/utils.go:160-179 | Appending what a child group returned loses nothing. |
| Probes.UnrollProbes | pkg/geneos/utils.go:56-124 | The result map is filled from the top level, then group after group. |
| Probes.EntriesIff | pkg/geneos/utils.go:128-183 | What a group contributes is exactly what its enabled probes, in enabled groups only, end up as. |
| Probes.ReachableIff | pkg/geneos/utils.go:56-183 | The same for the whole set-up. |
| Probes.ResultIff | pkg/geneos/utils.go:56-124 | The result has a name exactly when an enabled probe with no disabled enclosing group bears it, and holds such a probe with its looked-up settings. |
| Probes.DistinctNames | pkg/geneos/utils.go:56-124 | A probe whose name is its alone is in the result with its looked-up settings. |
| ProbeFields.FinalHolds | pkg/geneos/utils.go:66-155 | Field by field: a probe has port, secure flag and limits from the innermost level that sets them, itself first; a floating probe has limits only, no host, port or flag; a virtual probe has nothing but its name; each its own kind. |
| ProbeFields.ResultFields | pkg/geneos/utils.go:56-124 | The keys of the result are the names of the enabled probes of all kinds in enabled groups, and every entry holds, field by field, what such a probe of its name and its groups say. |
| ProbeFields.DistinctFields | pkg/geneos/utils.go:56-124 | A probe whose name is its alone is in the result with these fields. |
| ProbeOrder.LastStays | pkg/geneos/utils.go:56-183 | Of several probes with one name the last to enter stays: the top level, then each outermost group, in each the probes before the floating and these before the virtual ones, a kind in the order of the document. |
| Schema.RunOrdered | gdna/cmd/db.go:112-177 | In every run of events, failures and crashes included, updates are committed in order, only from the contiguous configured range and at most one ahead of the version, and every version passed is of an update that is present. |
| Schema.NeverBack | gdna/cmd/db.go:123-174 | However runs are cut and restarted the version never decreases and nothing committed is lost. |
| Schema.CompletedRun | gdna/cmd/db.go:123-128 | A completed run leaves the last version of the contiguous range, with every update of the range present. |
| Schema.RunOnce | gdna/cmd/db.go:137-174 | With a check for every update that can be reached, updates are applied in strictly increasing order, each at most once, and never one the database had already. |
| Schema.AppliedTwice | gdna/cmd/db.go:137-174 | An update without a check that can be reached is applied twice by some run that crashes between commit and version. |
| Schema.AtMostOnceIff | gdna/cmd/db.go:112-177 | All runs apply updates at most once exactly when every update that can be reached has a check. |
| Schema.FlagIff | gdna/cmd/db.go:162-164 | While the process lives its update flag is set exactly when it has committed an update. |
| Schema.FlagAfterCrashIff | gdna/cmd/db.go:159-164 | After the last crash of any run the flag is set exactly when an update has been committed since. |
| Schema.FlagLost | gdna/cmd/db.go:123-174 | For every set-up whose migration can complete and reaches an update that is due, some run applies it, crashes, and completes with the flag unset. |
| Schema.FlagKeptIff | gdna/cmd/db.go:112-177 | Over all runs, every completed migration that applied something leaves the flag set exactly when none can complete or no update that is reached is due. |
| Schema.Database.Apply | gdna/cmd/db.go:137-174 | One turn of the loop takes steps of the system: it ends with the version recorded, exactly when all its statements succeed, or in failure with what was committed. |
| Schema.Database.UpdateSchema | gdna/cmd/db.go:112-177 | The code is a run of the system; it fails exactly when a statement that it sends fails or the contiguous range has an update without a query. |
| Save.DecimalInjective | pkg/config/save.go:139 | Different numbers print differently. |
| Save.TempNamesDiffer | pkg/config/save.go:139 | Temporary names of different processes or counts differ, and differ from the target, whatever the path and extension. |
| Save.TempNameSpells | pkg/config/save.go:139 | A temporary name is the path, the process id and the count in decimal digits, and the extension. |
| Save.RunInv | pkg/config/save.go:135-149 | In every interleaving of writers, crashes and failures each live writer's file holds exactly what it has written, and the target what it held before or the last content renamed over it. |
| Save.OnlyAsked | pkg/config/save.go:135-149 | Only contents that a writer was asked to save are saved. |
| Save.TargetIsWhole | pkg/config/save.go:135-149 | At every moment the target is as it was or holds the complete contents of a writer; live temporary names are distinct and differ from the target. |
| Save.ComesAndGoes | pkg/config/save.go:37 | A process starts with its counter at zero; when it dies its writers stop where they are and nobody else notices. |
| Save.OthersUntouched | pkg/config/save.go:135-149 | No file is ever touched but the target and temporary ones. |
| Save.SavedWasThere | pkg/config/save.go:144-149 | Every writer whose file was renamed had its complete content in the target at some moment of the run. |
| Save.NoErrorMeansSavedIff | pkg/config/save.go:144-149 | In every run, each writer whose caller was told of no error has saved its content exactly when no rename that was tried and failed was followed by the removal of its file. |
| Save.NilWithoutSave | pkg/config/save.go:144-149 | When the rename fails and the removal succeeds the caller is told that all is well while the target is unchanged. |
| Save.Process.Write | pkg/config/save.go:135-149 | The code takes steps of the system; it returns an error exactly when writing fails or both rename and removal do, touches no file but the target and its temporary one, and leaves that behind only with an error. |
| Transform.DefaultsDetermined | pkg/ims/transform.go:88-94 | Setting defaults gives the same fields in every order. |
| Transform.StripDetermined | pkg/ims/transform.go:102-110 | With no name prefixed twice, stripping gives the same fields in every order the language allows, whether or not inserted keys are visited. |
| Transform.StripFreeIff | pkg/ims/transform.go:102-110 | The order of stripping cannot be told from the outcome exactly when no stripped name still carries the prefix. |
| Transform.RenameDetermined | pkg/ims/transform.go:112-119 | With independent renames every present source moves to its target in every order; a field renamed to itself is deleted. |
| Transform.OrderFreeIff | pkg/ims/transform.go:112-119 | The order of renaming can never be told exactly when no target is the source of another rename and no two renames share a target. |
| Transform.DeleteUnless | pkg/ims/transform.go:121-143 | Deleting from a map while going through it in any order keeps exactly what the predicate keeps. |
| Transform.Filter | pkg/ims/transform.go:121-163 | The two filters, the required fields and the removal of internal ones, first missing field reported. |
| Transform.Transform | pkg/ims/transform.go:85-168 | The outcome is that of the stages in the given orders. Whatever these are nothing internal is sent; when neither renaming stage depends on its order the outcome is one function of the input. |
| TransformFields.FieldByField | pkg/ims/transform.go:85-168 | That function, name by name: fields are sent exactly when every required name is there and passes the filters; a name is sent with a value exactly when a given, defaulted, prefixed or renamed field ends up there with it, it passes the filters and is not internal; else the first required name that is not there is reported. |
| TransformFields.RemovedIsGone | pkg/ims/transform.go:96-119 | A removed name is sent only when a rename or the prefix brings it back. |
| TransformFields.PrefixArrives | pkg/ims/transform.go:102-110 | A field named for the incident system arrives without the prefix, whatever the plain field holds. |
| SingleLine.NewSingleLineString | pkg/geneos/conftypes.go:129-150 | The loop yields the parsed parts. |
| SingleLine.String | pkg/geneos/conftypes.go:195-206 | The loop yields the printed parts one after the other. |
| SingleLine.PrintParse | pkg/geneos/conftypes.go:129-150 | Printing what was parsed returns the string, with a closing parenthesis added exactly when some `$(` in it has none after it. |
| SingleLine.ParsePrint | pkg/geneos/conftypes.go:195-237 | Parsing the print of a canonical list of parts returns the list. |
| SingleLine.ParseCanonical | pkg/geneos/conftypes.go:129-150 | Whatever is parsed is canonical. |
| SingleLine.ParsePrintIff | pkg/geneos/conftypes.go:129-237 | A list of parts is what its print parses to exactly when it is canonical. |
| SortKeys.EncodeOrder | pkg/reporter/forrmatted.go:174-181 | For cells free of NULs byte order on the keys is lexicographic order on the tuples, of whatever lengths. |
| SortKeys.LeIff | pkg/reporter/forrmatted.go:261 | Byte order: the first difference decides, and a text comes before those that it begins. |
| SortKeys.EncodeInjective | pkg/reporter/forrmatted.go:174-181 | Keys are equal exactly when the tuples are. |
| SortKeys.NulCollides | pkg/reporter/forrmatted.go:174-181 | For every tuple of two or more cells with a NUL in one of them another tuple of the same width has the same key. |
| SortKeys.AloneIff | pkg/reporter/forrmatted.go:174-181 | Among tuples of its width, two or more, a tuple has its key to itself exactly when its cells are free of NULs. |
| SortKeys.Sort | pkg/reporter/forrmatted.go:261 | The keys of the rows are taken in byte order. |
| Reporter.SortKey | pkg/reporter/forrmatted.go:174-180 | The loop over the ordering columns builds the encoding of the tuple. |
| Reporter.GroupedAt | pkg/reporter/forrmatted.go:181 | Under every key lie exactly the rows with that key in the order in which they came. |
| Reporter.SortedSame | pkg/reporter/forrmatted.go:261-269 | Going through the keys in order loses and repeats no row. |
| Reporter.SortedStable | pkg/reporter/forrmatted.go:261-269 | Rows with one key are rendered in the order in which they came. |
| Reporter.RenderedOrder | pkg/reporter/forrmatted.go:161-269 | The rendered rows are the collected ones, sorted by their ordering columns, ties in the order in which they came. |
| ReportOrder.RowsInOrder | pkg/reporter/forrmatted.go:161-269 | For updates with one number of columns, rows that reach over them, and cells to order by free of NULs: of any two rows that are rendered the earlier has the lesser cell in the first column asked for in which they differ, columns that do not exist skipped, all columns from the left when none are asked for. |
| ReportOrder.TiesInOrder | pkg/reporter/forrmatted.go:161-269 | Then rows that agree in these columns are rendered in the order in which they were supplied, and all supplied rows are, each as often, cut to the columns. |
| Reporter.FormattedReporter.UpdateTable | pkg/reporter/forrmatted.go:148-183 | The new state is that of the specified call: columns taken from the first call that has any, a table started afresh while there are none. |
| Reporter.FormattedReporter.Render | pkg/reporter/forrmatted.go:249-293 | The rows enter the writer and are emitted, or the program stops at a row that is too short. |
| Reporter.FormattedReporter.Prepare | pkg/reporter/forrmatted.go:101-125 | What was collected is rendered, then everything is reset. |
| Reporter.KeptIff | pkg/reporter/forrmatted.go:148-153 | Every supplied row is kept exactly when no update that finds no columns comes after a row. |
| Reporter.UpdatesState | pkg/reporter/forrmatted.go:148-183 | The table after any updates of a report holds the kept rows grouped by key. |
| Reporter.RunEmits | pkg/reporter/forrmatted.go:101-293 | A run of reports with one last rendering emits every report's rows once, report after report. |
| ReportOrder.EmissionsAre | pkg/reporter/forrmatted.go:271-293 | Of a run of reports those with rows are emitted, in a zip file all, each once and in order, under their titles. |
| ReportOrder.StopsIff | pkg/reporter/forrmatted.go:261-269 | The program stops exactly when a row that was kept is shorter than the columns. |
| ReportOrder.ColumnsAre | pkg/reporter/forrmatted.go:149-153 | The columns of a report are the first that are not empty. |
| Reporter.RowsConservedIff | pkg/reporter/forrmatted.go:148-269 | The rows rendered for a report are, as a multiset, those supplied, cut to its columns, exactly when its columns come no later than its first rows; else there are fewer. |
| Reporter.RunConservesIff | pkg/reporter/forrmatted.go:101-293 | Over a whole run of reports all supplied rows are emitted exactly once precisely when every report gives its columns no later than its first rows. |
| Reporter.RenderedTwice | pkg/reporter/forrmatted.go:101-103 | A report rendered before the next is prepared is rendered twice, in a csv file the second time with its rows doubled. |
| CACerts.TrustOfLast | pkg/certs/keystore.go:99-108 | The truststore holds under every alias the last valid root certificate with that alias, if there is one. |
| CACerts.WantedIff | pkg/certs/write.go:83-98 | The wanted certificates are the valid roots of the file and the valid roots given. |
| CACerts.WantedTimes | pkg/certs/certs.go:124-134 | Only roots within their time are wanted, both ends excluded. |
| CACerts.UpdatedIff | pkg/certs/write.go:73-112 | A successful call reports an update exactly when the file held no certificates or lacked a valid root that was given; otherwise it leaves the PEM file alone. |
| CACerts.FailedIff | pkg/certs/write.go:54-113 | A call fails exactly when it cannot read the file that is there, cannot write the truststore, or has certificates to write and cannot. |
| CACerts.FailedLeaves | pkg/certs/write.go:54-113 | A call that fails leaves each of the two files as it was or as a call that succeeds would. |
| CACerts.ValidPlaces | pkg/certs/write.go:83-85 | The valid certificates of the file keep their order. |
| CACerts.AddedPlaces | pkg/certs/write.go:87-98 | New roots come behind them in the order in which they were given, each once. |
| CACerts.WrittenPlaces | pkg/certs/write.go:140-162 | Written are the certificates that have not expired, in their order. |
| CACerts.Agreement | pkg/certs/write.go:54-113 | After every successful call the truststore is the one the PEM file gives. |
| CACerts.RootsStay | pkg/certs/write.go:54-113 | A root supplied to a successful call while valid is in the PEM file after every later call, failed ones included, as long as it is valid. |
| CACerts.RepeatIsQuiet | pkg/certs/write.go:88-106 | A second call with the same roots, at least one of them valid, reports no update and leaves the PEM file, unless a root has become valid in between. |
| CACerts.Bundle.WriteTrustStore | pkg/certs/keystore.go:94-116 | The loop replaces the truststore by that of the valid roots. |
| CACerts.Bundle.WriteCertificates | pkg/certs/write.go:140-162 | The loop writes the certificates that have not expired, in order. |
| CACerts.Bundle.UpdateCACertsFiles | pkg/certs/write.go:54-113 | The code makes the specified changes in the specified order for every combination of failures. |
| Load.MergeIsHighest | pkg/config/load.go:216-237 | Merging lowest priority first gives every key its value from the highest-priority directory that defines it; the file in use is that of the highest-priority directory that has one. |
| Load.SearchDirs | pkg/config/load.go:117-132 | The directories in their order, reversed for merging. |
| Load.MergeFiles | pkg/config/load.go:216-237 | The loop merges file after file and stops at one that cannot be read. |
| Load.Read | pkg/config/load.go:216-273 | The search with and without merging, with its errors; without directories a required file is not missed. |
| Load.Path | pkg/config/load.go:313-340 | The first directory whose file opens. |
| Load.Precedence | pkg/config/load.go:117-241 | Merging all, a key has its value from the highest-priority configuration file that defines it, else the highest-priority defaults file, else the internal default. |
| Places.MergedValue | pkg/config/load.go:117-237 | When merging, a key has the value of the first place whose file defines it, whatever the places behind it say: the explicit directories in their order, then the working, the user and the system directory; its default when no file defines it. |
| Places.MergedDefault | pkg/config/load.go:117-205 | The same for the defaults files, over the internal defaults. |
| Places.UsedFile | pkg/config/load.go:216-263 | The file in use is that of the first of these places that has one, merging or not. |
| Places.MergeStops | pkg/config/load.go:216-237 | When merging, the last place whose file cannot be read ends it with an error. |
| Places.FirstValue | pkg/config/load.go:245-263 | Without merging the first place that has a file decides alone, and its values override the defaults; if it cannot be read nothing is returned. |
| Places.NoFile | pkg/config/load.go:238-273 | With no file anywhere there are only the defaults, and an error exactly when a file is required and there is merging or a place to search. |
| Places.PathPlace | pkg/config/load.go:313-340 | `Path` returns the file of the first place that has one that opens, when merging of the last. |
| Places.UserOverSystem | pkg/config/load.go:117-132 | What the user's file says about a key stands, whatever the system file says, when no explicit and not the working directory has a file; that file is in use and is the one `Path` returns without merging. |
| Load.ReadIsPath | pkg/config/load.go:313-340 | Without merging the file loaded is the file `Path` returns; they differ only at a file that cannot be opened, on which one fails and which the other passes over. |
| Load.PathWhenMergingIff | pkg/config/load.go:324-340 | When merging readable files from distinct directories, `Path` returns the file in use exactly when at most one directory has a file. |
| Load.NothingReadIff | pkg/config/load.go:245-263 | Without merging no configuration is returned, not even the defaults, exactly when the first file that is there cannot be read. |
| Load.MissingReportedIff | pkg/config/load.go:238-273 | A required file that no directory has is reported as missing when merging, and without merging exactly when there are directories to search. |

## Left out

- Preservation.FoldKeysKeep: exact for values whose openers all close; for a value with an opener that is never closed, that no plain brace stands behind it is sufficient but not necessary, since whether a replacement can make such a brace close it depends on every brace and backslash between them.
- ReportOrder.RowsInOrder: for reports all of whose updates have the same number of columns; the columns to order by are chosen anew by every update from its own, so that otherwise rows of different updates are not compared by the same cells.
- KeyFiles.SecretRoundTrip: key files are read from one host; `EncodeString` and `Encode` differ only in their types and are one function, and so are the two decoders.
- Schema.AtMostOnceIff: a commit that takes effect although it reports an error is the event of a commit followed by a crash; two migrations of one database at the same time are not modelled, nor are versions beyond 32 bits.
- Save.TargetIsWhole: one machine; process ids are unique among live processes there, and writers on different machines saving to one remote host could meet.
- CACerts.RootsStay: the clock is read once per call, and a write that fails leaves the file as it was.
- Entities.UnrollEntities: groups and entities are values, so that two of them sharing one preset map of resolved samplers, which the code would fill in place, is not captured; maps of their own are (`AnySampler`).
- Crypto.DecodeInPlace: the library calls for hexadecimal digits and CBC fill the whole buffer in one assignment.
- AES is any bijection on blocks for each key, certificate chains and keystore files are their contents, `path.Clean` and `path.Join` are functions with the laws stated where they are needed.
- White space beyond ASCII in `TrimSpace`, the line-length limit of the key file scanner.
- The settings store is a flat map; nested keys, environment binding, mapstructure decoding, `set` on lists and maps, `setKeyValuePairs`, and settings that are not strings.
- Which values a reference can have outside the settings: files, URLs, environment and functions are one arbitrary mapping.
- Which keys `Write` copies and how the file is formatted; how the first `Read` without merging combines internal defaults with a defaults file, which the configuration library decides; an explicit configuration file or reader.
- `UnrollRules`, `UnrollTypes`, `UnrollSamplers` and process descriptors: the same traversal without inheritance.
- Headlines, titles, table styles, HTML and the scrambling of names in the reporter; rows are taken after scrambling.
- The process cache, duration formatting, and all of SSH, HTTP, SMTP, command-line and REST code.
