# simics-client-tools in Dafny

This project models the logic of the Python scripts in `bin/` of
simics-client-tools and proves properties of that model.

## What is modelled

The main part is the fuse-patch toolkit of `bin/fusegen-tools.py`. A fuse
record has an address, a start bit, a width, a value, a name and a type. The
toolkit works on lists of such records:

- **Value codec.** `process_value` turns literals into integers: hex, binary,
  decimal and sized Verilog-style literals (`FuseValue`, on top of a model of
  Python's `int(text, base)` in `PyInt`).
- **Name sanitiser.** `fixupFuseName` (`FuseValue`).
- **Patch-line format.** The lines `save_patch_items` writes and
  `load_patch_items` reads (`PatchFormat`).
- **List transforms.**
  - `update_patch` (`PatchUpdate`);
  - `merge_patches` and `merge_values` (`PatchMerge`);
  - the prune block of `__main__` (`PatchUpdate`);
  - the reconcile block of `__main__` (`PatchReconcile`);
  - `compare_patch` (`PatchCompare`).
- **Bit-field import.** `extract_blob_data`, `filter_values`, `filter_dlut`
  and `import_blob` (`FuseBlob`).
- **Small helpers** (`FuseCatalog`, `FuseConfig`):
  - `combine_portid`, the DLUT sort key and `get_stats`;
  - the rule of `parse_high_groups`;
  - `get_fuse_stats`;
  - the line parsing of `parse_cfg_out` and `parse_default_ovrd`.

Around that core sit the small utilities, one module each:

- `CompareFiles`: `compare_lines`.
- `CollectFiles`: `process_line` and `extract_plugin_names`.
- `FileUtilities`: `is_long_path`, `make_long_path` and the decision logic of
  `copy_newer_file`.
- `CdbFuncs`:
  - the bank-file name predicates;
  - `get_companion_filename`, `trim_bankfile_name` and `can_disable`;
  - the token rule of `get_devbank_map`.
- `Tags`:
  - `contains_tag`, `get_files_by_tag`, `build_tagline` and `is_tagline`;
  - the tag parse of `get_tags`;
  - the add and remove rewrites.
- `CollectTests`: `extract_result` and the counting of `collect_logs`, both
  from `bin/collecttests.py`. `bin/collectdefaults.py` holds a copy of
  `extract_result` that is identical character for character.
- `CollectDefaults`: the renaming rule of `bin/collectdefaults.py`.
- `SummarizeTests`: `extract_results`, `get_params_and_fmods` and the
  counting dictionaries of `bin/summarizetests.py`.
- `LogInstances`: the counting loop of `bin/loginstances.py`.
- `GenUrl`: `convert_url`.
- `ProjSetup`: the version selection of `bin/projsetup.py`.

The Python built-ins the scripts rely on are modelled with their Python
meaning in small support modules:

- `PyStr`: `find`, `rfind`, slicing, `strip`, `split`, `replace` and ASCII
  `lower`.
- `PyInt`: `int(text, base)` and hex and decimal formatting.
- `PyBits`: shifts and `&` on non-negative integers.
- `PosixPath`: `os.path.join`, `basename` and `dirname`.
- `Sorting`: a stable sort by key.
- `StrOrder`: the ordering of Python strings.
- `Tally`, `Counter`, `Dedup`: counting, dictionaries built by counting, and
  membership-guarded appends.
- `Wrappers`: `Option` and `Result`.

The scripts report errors by raising exceptions. Here each exception is an
error value (`Result`/`Option`), so that a contract can state when it is
raised:

- `IndexError`, `ValueError` and the script's own `MyException`;
- the `NameError` of a finding below.

Where the scripts update records or lists in place, the model uses these
forms:

- a loop in a `method`, proved against a function that states the result;
- or a function over sequences whose lemmas state what the loop keeps.

Records are datatype values; a dictionary mutated in place is a record
replaced at its index.

## Model

| member | source | states |
|---|---|---|
| FuseValue.ProcessValue | bin/fusegen-tools.py:211-276 | `process_value(text)`. It fails only in two ways: with `IndexError`, or with the script's "Cannot parse value" exception naming the original text. |
| FuseValue.Normalize | bin/fusegen-tools.py:224-230 | The text handed to the radix rules holds no quote and no underscore. |
| FuseValue.Unwrap | bin/fusegen-tools.py:226-230 | Absent exactly when the text is empty, where `text[0]` raises. Otherwise quote-free, and underscore-free when the input has no underscore. |
| FuseValue.Radix | bin/fusegen-tools.py:232-253 | The base chosen is 0, 2, 10 or 16. The digits kept are no longer than the text. |
| FuseValue.ReadDigits | bin/fusegen-tools.py:255-270 | Every failure is the "Cannot parse value" exception for the original text. |
| FuseValue.ReadDigitsText | bin/fusegen-tools.py:267-270 | The original text is only quoted in the error: success and value do not depend on it. |
| FuseValue.NormalizePlain | bin/fusegen-tools.py:224-230 | Text without underscore, quote or leading brace reaches the radix rules unchanged. |
| FuseValue.NormalizeSized | bin/fusegen-tools.py:229-230 | Of `width'rest` only `rest` reaches the radix rules. |
| FuseValue.QuoteFree | bin/fusegen-tools.py:229-230 | The piece after the first quote holds no quote, and no underscore when the text had none. |
| FuseValue.RemoveAllEmpty | bin/fusegen-tools.py:224-226 | Removing every `c` leaves nothing exactly when the text consists of `c` only. |
| FuseValue.RadixIn | bin/fusegen-tools.py:232-253 | Every character the radix rules keep occurs in their input. |
| FuseValue.RadixLast | bin/fusegen-tools.py:252-253 | When no marker rule applies, plain decimal digits get base 10 and anything else base 0. |
| FuseValue.RadixOther | bin/fusegen-tools.py:232-253 | `S`, `s`, `-` and `F` meet no radix rule and keep base 0. |
| FuseValue.RadixDigits | bin/fusegen-tools.py:252-253 | Plain decimal digits are read in base 10 as they stand. |
| FuseValue.RadixMarked | bin/fusegen-tools.py:240-250 | An `h`, `b` or `d` at either end selects base 16, 2 or 10 and is stripped from both ends, once the earlier rules do not apply. |
| FuseValue.RadixMarkedPrefix | bin/fusegen-tools.py:240-250 | A marker letter in front of digits of its base selects that base and leaves the digits. |
| FuseValue.RadixMarkedSuffix | bin/fusegen-tools.py:240-250 | Digits of a base followed by their marker letter select that base and leave the digits. |
| FuseValue.ReadAs | bin/fusegen-tools.py:222-270 | Once the normalised text, its radix and the value `int` gives are known, `process_value` returns that value. |
| FuseValue.QuoteOneUnreachable | bin/fusegen-tools.py:264-265 | The check for the text `'1` never fires, because every quote has already been cut away. |
| FuseValue.PlaceholdersReadZero | bin/fusegen-tools.py:214-262 | `None`, "None", "0/0/0", "S", "s", "-" and "F" all read as 0. An "F" qualifies because no rule makes it hex. |
| FuseValue.IndexErrorExactly | bin/fusegen-tools.py:224-226 | `process_value` raises `IndexError` exactly when the text is empty or made of underscores only. |
| FuseValue.UnderscoresIgnored | bin/fusegen-tools.py:224 | Two texts equal once underscores are removed both succeed or both fail, and read as the same number. |
| FuseValue.HexPrefixed | bin/fusegen-tools.py:232-234 | `0x` followed by the hex digits of `n` reads as `n`. |
| FuseValue.DigitsParse | bin/fusegen-tools.py:267-268 | The hex, decimal or binary digits of `n` read back as `n` by `int(text, base)`. |
| FuseValue.SizedLiteral | bin/fusegen-tools.py:229-250 | A sized literal such as `5'b10111` or `16'h7c` reads as its digits in the marker's base: the width is ignored. |
| FuseValue.MarkedSuffix | bin/fusegen-tools.py:240-250 | Digits followed by their marker (`1fh`, `101b`, `99d`) read in the marker's base. |
| FuseValue.DecimalDigits | bin/fusegen-tools.py:252-253 | Plain decimal digits, leading zeros included, read as their decimal value. |
| FuseValue.Sanitize | bin/fusegen-tools.py:384-388 | Same length as the name. Each character of the replaced set becomes `_`, and every other character stays. |
| FuseValue.ReplaceEachSanitizes | bin/fusegen-tools.py:385-387 | The loop of `replace` calls, one per bad character, equals the position-by-position map. |
| FuseValue.FixupFuseName | bin/fusegen-tools.py:384-390 | Fails with `IndexError` exactly on the empty name. Otherwise the result is the sanitised name, with `_` in front when it starts with a digit. |
| FuseValue.FixupFuseNameClean | bin/fusegen-tools.py:384-390 | The result holds none of `" /-():[]#."` and does not start with a digit. It is at most one character longer than the name. |
| FuseValue.FixupFuseNameIdempotent | bin/fusegen-tools.py:384-390 | Applying `fixupFuseName` to its own result changes nothing. |
| PyInt.DigitVal | bin/fusegen-tools.py:267-268 | The value of a digit or letter as `int` reads it: below 10 exactly for decimal digits, and at most 36. |
| PyInt.RemoveUnderscores | bin/fusegen-tools.py:881-884 | What `int` drops between digits: the result is no longer than the text, holds no `_`, and every character comes from the text. |
| PyInt.LiteralBase | bin/fusegen-tools.py:267-268 | An explicit base is kept. Base 0 picks 2, 8, 10 or 16 from the literal's prefix. |
| PyInt.ParseUnsigned | bin/fusegen-tools.py:267-268 | The unsigned part of `int(text, base)`: any value read is non-negative. |
| PyInt.DigitsOf | bin/fusegen-tools.py:1401-1408 | The lower-case digits `format` writes for a non-negative number: at least one character, each a digit of the base, none an `_`, a space, an `x`, an `h` or a quote. |
| PyInt.DigitsOfValue | bin/fusegen-tools.py:1401-1408 | The digits written for `n` denote `n`, with no leading zero unless `n` is 0. |
| PyInt.Zeros | bin/fusegen-tools.py:1402-1408 | Padding of `k` zeros, none when `k` is negative. |
| PyInt.FormatHex | bin/fusegen-tools.py:1401-1408 | `'{:0<width>x}'.format(n)`: at least `width` characters, and exactly the padded digits with one more for a minus sign. |
| PyInt.ZeroPad | bin/fusegen-tools.py:1402-1408 | The padded text is as long as the larger of `width` and the digits. |
| PyInt.FormatDec | bin/fusegen-tools.py:1411 | `str(n)`: non-empty, and it starts with `-` exactly for negative `n`. |
| PyInt.DigitsValueZeros | bin/fusegen-tools.py:1402-1408 | Leading zeros do not change the value of the digits. |
| PyInt.RemoveUnderscoresNone | bin/fusegen-tools.py:881-884 | Text without underscores is read as it stands. |
| PyInt.PaddedDigitsParse | bin/fusegen-tools.py:881-884 | Zero-padded digits of a base, with or without a minus sign, are read back by `int` as their signed value. |
| PyInt.PaddedDigitsUnsigned | bin/fusegen-tools.py:881-884 | Zero-padded digits of a base are read by the unsigned part of `int` as their value. |
| PyInt.NegativeParse | bin/fusegen-tools.py:881-884 | A minus sign in front of digits that read as `n` gives `-n`. |
| PyInt.PlainParse | bin/fusegen-tools.py:881-884 | Without a sign, the value is that of the digits. |
| PyInt.FormatHexParse | bin/fusegen-tools.py:1401-1408 | Reading back, with `int(text, 16)`, the hex text `save_patch_items` writes for a value gives that value, whatever the padding width. |
| PyInt.FormatDecParse | bin/fusegen-tools.py:1411 | Reading back, with `int(text, 10)`, the decimal text written for a start bit or width gives that number. |
| PyInt.FormatHexShape | bin/fusegen-tools.py:1401-1408 | A formatted hex value is non-empty, and each character is a hex digit or the minus sign. |
| PyInt.FormatDecShape | bin/fusegen-tools.py:1411 | Each character of a formatted decimal number is a decimal digit or the minus sign. |
| PatchFormat.ValueDigits | bin/fusegen-tools.py:1402-1404 | The value column is padded to one hex digit per four bits of width, and at least one. |
| PatchFormat.SavedType | bin/fusegen-tools.py:1409-1411 | The type column is wrapped in exactly one pair of parentheses. The characters inside are the type's own, with every parenthesis dropped. |
| PatchFormat.SavedRows | bin/fusegen-tools.py:1400-1412 | One written row per record, in order. Each is that record's row. |
| PatchFormat.SavePatchItems | bin/fusegen-tools.py:1387-1416 | The loop writes the header and then one row per record, in the order sorted by ADDR*8+STARTBIT. |
| PatchFormat.SaveRows | bin/fusegen-tools.py:1400-1412 | The row loop writes exactly one row per record, in order. |
| PatchFormat.Field | bin/fusegen-tools.py:881-886 | Reading a missing column raises `IndexError`. A field that is read is the value `int` gives for that column. |
| PatchFormat.ParseFields | bin/fusegen-tools.py:874-910 | A blank line raises `IndexError` (`line_parts[0][0]`). A record read from a line is not a config item, is not skipped, and has a name and a type without spaces. |
| PatchFormat.ParseParts | bin/fusegen-tools.py:876-910 | An empty first column raises `IndexError`. A record takes its name from the sixth column and its type from the seventh, or "(fuse)" when there is none. |
| PatchFormat.NameTypeFree | bin/fusegen-tools.py:875-876 | The name and type columns a line is split into hold no space. |
| PatchFormat.ParseRow | bin/fusegen-tools.py:874-910 | One line of `load_patch_items`, with the prefix filter as intended: every record kept has a name starting with the prefix. |
| PatchFormat.KeepPrefix | bin/fusegen-tools.py:889-892 | The intended prefix filter. It keeps errors, keeps a record exactly when its name starts with the prefix, and changes nothing for an empty prefix. |
| PatchFormat.ParseRowAsWritten | bin/fusegen-tools.py:874-910 | The line as written. With an empty prefix it agrees with `ParseRow`. |
| PatchFormat.ParsedLines | bin/fusegen-tools.py:874-910 | The reading of each line, position by position. |
| PatchFormat.Gather | bin/fusegen-tools.py:874-912 | The records collected, in order: never more than there are lines. |
| PatchFormat.LoadPatchItems | bin/fusegen-tools.py:860-912 | The loop returns the records of the lines, in order, or the first error raised on a line. |
| PatchFormat.GatherErr | bin/fusegen-tools.py:874-910 | Once a line raises, the whole load raises that error. |
| PatchFormat.Names | bin/fusegen-tools.py:1379-1385 | The names of the records, in order. |
| PatchFormat.FindByName | bin/fusegen-tools.py:1379-1385 | `find_by_name`. It finds the first record with the name, and finds none exactly when no record has it. |
| PatchFormat.FindByNameNames | bin/fusegen-tools.py:1379-1385 | The lookup depends only on the names. |
| PatchFormat.FindByNameAppend | bin/fusegen-tools.py:1379-1385 | Appending a record leaves an earlier match in place, and otherwise finds the new record exactly when it has the name. |
| PatchFormat.FindByNameUpdate | bin/fusegen-tools.py:1379-1385 | Replacing a record by one of the same name changes no lookup. |
| PatchFormat.PlainRows | bin/fusegen-tools.py:956-973 | The rows `update_patch` writes, one per record, with the type as it stands. |
| PatchFormat.NameRow | bin/fusegen-tools.py:848-855 | One line of `load_fuse_names`. A blank line raises `IndexError`. A name read has no space, is not empty and is not a comment. |
| PatchFormat.LoadFuseNames | bin/fusegen-tools.py:836-858 | The loop returns the first column of every non-comment line, in order, or the first error. |
| PatchFormat.NameRowsErr | bin/fusegen-tools.py:848-855 | Once a line raises, `load_fuse_names` raises that error. |
| PatchFormat.RowSplits | bin/fusegen-tools.py:875-876 | Splitting a written row at spaces gives back its seven columns. |
| PatchFormat.PartsRead | bin/fusegen-tools.py:879-910 | Seven columns whose numbers parse give the record with those fields, name and type. |
| PatchFormat.RowRoundTrip | bin/fusegen-tools.py:874-910 | Reading a row written for a record recovers ADDR, STARTBIT, WIDTH, VALUE and NAME, with the type text written. This needs a name and type without spaces. The row is taken as one line; `Writable` adds the line-break condition for a file. |
| PatchFormat.SavedRowRoundTrip | bin/fusegen-tools.py:1400-1412 | A row written by `save_patch_items` reads back as the record, with the parenthesised type, when name and type hold no space or line break. |
| PatchFormat.CommentLine | bin/fusegen-tools.py:877-879 | A line whose first character is `#` is skipped. |
| PatchFormat.HeaderSkipped | bin/fusegen-tools.py:1399 | The header line is skipped when read back, whatever the prefix. |
| PatchFormat.RereadAll | bin/fusegen-tools.py:1400-1412 | What reading back each saved record gives: its fields and name, with the saved type. |
| PatchFormat.LoadSavedRows | bin/fusegen-tools.py:860-912 | The header followed by saved rows loads as the re-read records, in order. |
| PatchFormat.SaveLoadRoundTrip | bin/fusegen-tools.py:1387-1416 | Loading what `save_patch_items` writes gives the records sorted by bit position, with saved types, when no name or type holds a space or line break. The result is sorted and a permutation of the input. |
| PatchFormat.SavedTypeIdempotent | bin/fusegen-tools.py:1409-1411 | Saving a saved type again does not nest the parentheses. |
| PatchFormat.LoadRowsFiltered | bin/fusegen-tools.py:889-892 | Loading with the intended prefix filter gives the unfiltered records whose names start with the prefix, in order. It fails exactly when the unfiltered load fails. |
| PatchFormat.FilterPrefix | bin/fusegen-tools.py:889-892 | Filtering keeps no more records than it is given. |
| PatchFormat.PrefixFailsAsWritten | bin/fusegen-tools.py:889-892 | As written, any non-empty prefix raises `NameError` on the first record row. The intended filter keeps a record whose name has the prefix. |
| PatchUpdate.UpdateOne | bin/fusegen-tools.py:930-951 | One old record against the defaults. It is not found exactly when no default has its name. It is skipped exactly when it is a config item whose value equals the first default's. Otherwise it takes ADDR, STARTBIT, WIDTH and TYPE from that default and keeps its name, value and flags. |
| PatchUpdate.UpdateSteps | bin/fusegen-tools.py:930-951 | The outcome for each old record, position by position. |
| PatchUpdate.Refreshes | bin/fusegen-tools.py:930-951 | `tmp_items` holds one record per updated outcome. |
| PatchUpdate.RefreshesSnoc | bin/fusegen-tools.py:950-951 | An updated record is appended to `tmp_items`, and nothing else is. |
| PatchUpdate.RefreshesMembers | bin/fusegen-tools.py:930-951 | A record is in `tmp_items` exactly when some old record was updated into it. |
| PatchUpdate.UpdateStepsSnoc | bin/fusegen-tools.py:930-951 | One more old record adds its outcome and raises exactly one of the three counters. An updated record also lands in `tmp_items`. |
| PatchUpdate.StepCounts | bin/fusegen-tools.py:916-951 | Updated, not found and skipped add up to the number of old records. |
| PatchUpdate.UpdatePatch | bin/fusegen-tools.py:915-979 | `update_patch`. It writes the lines of the update and returns the three counters. The counters count the three outcomes and sum to `len(old_items)`. |
| PatchUpdate.WriteRows | bin/fusegen-tools.py:955-973 | The writing loop emits a row for each sorted record, except one with ADDR 0 and WIDTH 0 or one flagged SKIP. |
| PatchUpdate.UpdateOutputSpec | bin/fusegen-tools.py:930-973 | The rows are in bit-position order. A record is written exactly when it is the update of an old record, has position data and is not flagged SKIP. Every written name occurs among the defaults. |
| PatchUpdate.ImportItems | bin/fusegen-tools.py:2137-2159 | The import loop returns the list and the four counters the import step produces. |
| PatchUpdate.ImportedKeepsOld | bin/fusegen-tools.py:2137-2159 | Importing only appends records and changes values. Old records keep every other field. They keep their value too when no locked list was given, or when their name is locked. |
| PatchUpdate.ImportedNames | bin/fusegen-tools.py:2137-2159 | After importing, every imported name and every old name occurs in the list. |
| PatchUpdate.ImportOneNames | bin/fusegen-tools.py:2139-2159 | One import keeps the earlier names in place and holds the imported name. |
| PatchUpdate.ImportedCounts | bin/fusegen-tools.py:2127-2159 | With a locked list, locked-kept, unlocked-kept, unlocked-changed and added sum to the number of imported records. |
| PatchUpdate.Stub | bin/fusegen-tools.py:2183-2192 | A config.out record the patch lacks becomes a stub: ADDR 0, WIDTH 0, a config item, not skipped. |
| PatchUpdate.AddStubs | bin/fusegen-tools.py:2170-2198 | The config.out loop appends to the old list the stubs of the config records it lacks, in order. |
| PatchUpdate.StubsSpec | bin/fusegen-tools.py:2170-2198 | Every stub comes from a config record whose name the list lacks, and every such record gets a stub. There are no more stubs than config records. |
| PatchUpdate.UpdateMode | bin/fusegen-tools.py:2095-2204 | The update mode writes nothing exactly when the old patch, the defaults, a given locked list or a given import file is empty. Otherwise it writes the update of the imported and stubbed list. |
| PatchUpdate.PruneOne | bin/fusegen-tools.py:2069-2084 | One old record against the defaults. With no default of its name it is kept and typed "no default". With a different default value it is kept and typed `0x<default>`. With an equal value it is discarded. |
| PatchUpdate.PruneSteps | bin/fusegen-tools.py:2069-2084 | The prune outcome for each old record, position by position. |
| PatchUpdate.PruneStepsSnoc | bin/fusegen-tools.py:2069-2084 | One more old record adds its outcome, appends its retyped form unless discarded, and raises the matching counter. |
| PatchUpdate.KeptCount | bin/fusegen-tools.py:2051-2094 | Kept plus discarded equals the number of old records. The not-found records are among the kept ones. |
| PatchUpdate.Prune | bin/fusegen-tools.py:2041-2094 | The prune mode stops exactly when the old patch or the defaults are empty. Otherwise it saves the kept records and returns the counters, with kept plus discarded equal to the number of old records. |
| PatchUpdate.PrunedSpec | bin/fusegen-tools.py:2069-2087 | An old record is kept, retyped, exactly when its value differs from its default or it has none. Every kept record is such a record. |
| PatchUpdate.KeptItemsSpec | bin/fusegen-tools.py:2069-2084 | `kept_items` holds exactly the retyped records whose outcome is not a discard. |
| PatchMerge.LastValue | bin/fusegen-tools.py:1835-1845 | The value of the last record of a name, or the default value when no record has that name. |
| PatchMerge.OverriddenShape | bin/fusegen-tools.py:1835-1845 | The overrides keep the defaults' length and names, and rewrite only values and types. Updated, missing and unchanged add up to the number of overrides. Each missing name is absent from the defaults. |
| PatchMerge.OverrideLastWins | bin/fusegen-tools.py:1835-1845 | The first default of a name ends with the value of the last override of that name. Every other default keeps its value. |
| PatchMerge.At | bin/fusegen-tools.py:1843 | The records at the recorded indices, one per index, as `items_updated` aliases them. |
| PatchMerge.MergeValues | bin/fusegen-tools.py:1815-1863 | `merge_values` on lists already read. It fails on empty overrides or empty defaults. Otherwise it saves the changed records, or all defaults, after the override loop. |
| PatchMerge.MergePatches | bin/fusegen-tools.py:1865-1933 | `merge_patches` on lists already read. It fails on an empty old or new patch. Otherwise it saves the merged list. |
| PatchMerge.MergedShape | bin/fusegen-tools.py:1895-1921 | The merge only appends and rewrites values and types. Unchanged, changed, new and locked add up to `len(new_items)`, and the final length is `len(old)` plus new. Locked old records are untouched, and no appended record is locked. |
| PatchMerge.MergeLastWins | bin/fusegen-tools.py:1900-1921 | Every unlocked name of the new patch is in the merged list. The first record of that name holds the value of the last new record of the name. |
| PatchReconcile.ExactPairs | bin/fusegen-tools.py:2226-2236 | One exact pair per default with the old record's ADDR and STARTBIT, and no other. |
| PatchReconcile.LastSameAddr | bin/fusegen-tools.py:2225-2228 | `last_default` has the old record's address. |
| PatchReconcile.LastSameAddrIsLast | bin/fusegen-tools.py:2225-2228 | `last_default` is the last default at the address. It exists exactly when some default has that address. |
| PatchReconcile.PairsFor | bin/fusegen-tools.py:2223-2251 | An old record gets its exact pairs. Failing those, it gets exactly one non-exact pair. |
| PatchReconcile.Pairings | bin/fusegen-tools.py:2219-2251 | `item_pairs` refers only to existing old records. |
| PatchReconcile.PairsForSpec | bin/fusegen-tools.py:2223-2251 | Every default at the same ADDR and STARTBIT gives an exact pair. Without one, a closest pair holds the last default at the same ADDR. With no default at that ADDR, the record is paired with itself. |
| PatchReconcile.RelabelKeeps | bin/fusegen-tools.py:2264-2282 | A rewrite keeps ADDR, STARTBIT, WIDTH and VALUE and takes the partner's name. Its type says how it matched. An unmatched record only gets the type "(no match, keeping original fuse)". |
| PatchReconcile.Reconciled | bin/fusegen-tools.py:2263-2295 | The loop leaves as many records as were read and writes one row per pair. |
| PatchReconcile.ScanDefaults | bin/fusegen-tools.py:2224-2236 | The inner loop appends the exact pairs. It reports whether there was one, and yields the last default at the address. |
| PatchReconcile.PairUp | bin/fusegen-tools.py:2219-2251 | The pairing loop builds exactly `item_pairs`. |
| PatchReconcile.Rewrite | bin/fusegen-tools.py:2263-2295 | The writing loop writes, for each pair, its old record as rewritten so far. |
| PatchReconcile.Reconcile | bin/fusegen-tools.py:2212-2299 | The reconcile mode writes the header and then one row per pair. |
| PatchReconcile.ReconciledKeeps | bin/fusegen-tools.py:2263-2295 | Every row keeps the old record's ADDR, STARTBIT, WIDTH and VALUE. It takes the name of the default it was paired with, or keeps its own when unmatched, and its type says how it matched. |
| PatchReconcile.PairingsOrdered | bin/fusegen-tools.py:2223-2251 | The pairs come old record by old record. Only exact pairs share an old record. |
| PatchReconcile.ReconciledUntouched | bin/fusegen-tools.py:2264-2270 | A record no earlier pair refers to is seen as it was read. |
| PatchReconcile.ReconcileSingleRows | bin/fusegen-tools.py:2264-2295 | A closest or unmatched row is its old record rewritten once. An unmatched row is the old record with only its type changed. |
| PatchReconcile.ReconciledPrefix | bin/fusegen-tools.py:2264-2295 | The row written for a pair depends only on the pairs before it. |
| PatchCompare.SortOld | bin/fusegen-tools.py:1494-1507 | The old records are split into only-old, same-value and different-value. These add up to the number of old records. |
| PatchCompare.OnlyNew | bin/fusegen-tools.py:1528-1531 | `only_new` is no longer than the new patch. |
| PatchCompare.ComparePatch | bin/fusegen-tools.py:1465-1564 | `compare_patch` in patch mode on lists already read. It fails on an empty patch, and otherwise builds the four lists. |
| PatchCompare.PartnerSpec | bin/fusegen-tools.py:1496 | The record found in the new patch has the old record's name, and none is found exactly when the new patch lacks the name. |
| PatchCompare.SortOldComplete | bin/fusegen-tools.py:1494-1507 | Each old record lands in the list its name and value call for. |
| PatchCompare.SortOldSound | bin/fusegen-tools.py:1494-1507 | Every listed record comes from the old patch and meets its list's rule. |
| PatchCompare.OnlyNewSpec | bin/fusegen-tools.py:1528-1531 | `only_new` holds exactly the new records whose name the old patch lacks. |
| FuseBlob.Bytes | bin/fusegen-tools.py:1349 | A byte slice with Python's bounds. In range it is exactly `b[i..j]`. It is never longer than the blob or than `j - i`. |
| FuseBlob.ExtractBlobData | bin/fusegen-tools.py:1148-1184 | The header/section loop of `extract_blob_data` returns exactly the chunks its recursive definition cuts from the blob. A header cut short by the end of the blob raises IndexError. |
| FuseBlob.ChunksFromBounds | bin/fusegen-tools.py:1166-1182 | Every chunk costs at least a four-byte header, so there are at most a quarter as many chunks as bytes. A chunk holds at most 255 dwords. The only failure is IndexError. |
| FuseBlob.ChunksFromShift | bin/fusegen-tools.py:1166-1182 | Cutting chunks depends only on the bytes from the current position on: a prefix before it changes nothing. |
| FuseBlob.ExtractFrame | bin/fusegen-tools.py:1148-1184 | Round trip: chunks framed behind headers that give their dword count are recovered exactly by extraction. |
| FuseBlob.ByteCount | bin/fusegen-tools.py:1336 | The byte count is positive exactly when start plus width is, and its bytes cover all the field's bits. |
| FuseBlob.FieldValue | bin/fusegen-tools.py:1336-1351 | Reading a field fails, always with ValueError, exactly when the mask string is empty or the start bit is negative. |
| FuseBlob.MaskedField | bin/fusegen-tools.py:1340-1351 | And-ing with the mask of bits `startBit` to `startBit + width - 1` and shifting right by `startBit` yields bits `startBit` up of the value, modulo `2^width`. The result fits in `width` bits. |
| FuseBlob.FieldValueSpec | bin/fusegen-tools.py:1336-1351 | For a non-negative start and width, a read fails only for an empty field. Otherwise it is the spanned little-endian bytes divided by `2^startBit`, modulo `2^width`, and so it is below `2^width`. |
| FuseBlob.FieldValueRead | bin/fusegen-tools.py:1336-1351 | A non-empty field reads as its bits taken from the little-endian bytes it spans. |
| FuseBlob.RangeMask | bin/fusegen-tools.py:1337-1346 | The loop that builds the bit string, reversed and parsed in base 2, yields the mask of bits `lo` to `hi - 1` out of `total`. |
| FuseBlob.ExtractField | bin/fusegen-tools.py:1331-1351 | The statements of the inner loop compute the field's value as specified, failing in the same cases. |
| FuseBlob.DecodeRow | bin/fusegen-tools.py:1331-1361 | Decoding a record fails exactly on an unreadable field. Otherwise the record takes the field's value. A changed value leaves the old one in the type as `(0x<old>)`, an equal one sets the type to `(fuse)`, and nothing else changes. |
| FuseBlob.DecodeRecord | bin/fusegen-tools.py:1331-1361 | The statements for one record compute the decoding of that record. |
| FuseBlob.DecodeRows | bin/fusegen-tools.py:1329-1371 | Decoding the picked records of a chunk keeps every record's place and field, and writes one row per pick. |
| FuseBlob.DecodeRowsFails | bin/fusegen-tools.py:1329-1351 | A chunk fails exactly when one of its picked records has an unreadable field. |
| FuseBlob.DecodeRowsDecoded | bin/fusegen-tools.py:1329-1361 | After a chunk, each picked record (picks in increasing order) holds its own decoding. |
| FuseBlob.DecodeRowsOrder | bin/fusegen-tools.py:1329-1371 | The rows written for a chunk are the updated picked records, in pick order. |
| FuseBlob.DecodeRowsOut | bin/fusegen-tools.py:1329-1371 | Each written row has the address, start bit, width and name of the record it was picked from. |
| FuseBlob.DecodeRowsUntouched | bin/fusegen-tools.py:1329-1361 | Records that were not picked are left exactly as they were. |
| FuseBlob.DecodeRowsErrStays | bin/fusegen-tools.py:1329-1351 | Once a record of the chunk fails, the remaining picks do not change the outcome. |
| FuseBlob.DecodeChunk | bin/fusegen-tools.py:1329-1371 | The inner loop updates records in place and collects written rows exactly as the specification of a chunk's decoding says. |
| FuseBlob.PicksFrom | bin/fusegen-tools.py:1229-1243 | The picked positions are records at or after the scan's start. |
| FuseBlob.Picks | bin/fusegen-tools.py:1221-1245 | `filter_values` returns records of the given list. |
| FuseBlob.FilterValues | bin/fusegen-tools.py:1221-1245 | The loop with its `continue` and `break` picks exactly the positions of the specification. |
| FuseBlob.PicksFromOrdered | bin/fusegen-tools.py:1229-1239 | The picks keep the list's order, and each has the prefix and lies at or above the base address. |
| FuseBlob.PicksFromBudget | bin/fusegen-tools.py:1237-1239 | Each record was taken while fewer than `data_size * 8` bits were taken before it. |
| FuseBlob.PicksFromMaximal | bin/fusegen-tools.py:1237-1243 | An eligible record left out lies after every pick, and by then the picks had used up the bit budget. |
| FuseBlob.DlutMatches | bin/fusegen-tools.py:1248-1266 | `filter_dlut` keeps exactly the entries of the given instance, group and kind: each kept entry matches, and each matching entry is kept. |
| FuseBlob.FilterDlut | bin/fusegen-tools.py:1248-1266 | The filtering loop returns exactly the matching entries in order. |
| FuseBlob.Run | bin/fusegen-tools.py:1311-1373 | While the chunk loop is going, it keeps one record per default, and there are no more chunks than DLUT entries. It halts only by stopping or by raising. |
| FuseBlob.ImportBlobOutcome | bin/fusegen-tools.py:1269-1377 | `import_blob` refuses, before opening the output, exactly when the target, the defaults or the prefix is empty, or no DLUT entry matches. |
| FuseBlob.RunHaltedStays | bin/fusegen-tools.py:1318-1320 | After the loop halts, later blobs change nothing. |
| FuseBlob.RunPastChunks | bin/fusegen-tools.py:1313 | A blob past the last matching DLUT entry raises IndexError. |
| FuseBlob.ImportBlob | bin/fusegen-tools.py:1269-1377 | The checks and the loop over blobs end as `import_blob` specifies: refused, stopped with the rows written so far, raised, or written. |
| FuseBlob.RunShape | bin/fusegen-tools.py:1311-1373 | A completed loop writes at least one row per blob. The records differ from the defaults only in value and type. |
| FuseBlob.RunNames | bin/fusegen-tools.py:1317-1371 | Every written row names a record with the requested prefix. |
| FuseCatalog.CombinePortIdSpec | bin/fusegen-tools.py:1664-1668 | For a low id that fits a byte, the combined id is `hi * 256 + lo`. Its high and low bytes give back the two ids. |
| FuseCatalog.CombinePortIdInjective | bin/fusegen-tools.py:1664-1668 | For low ids that fit a byte, two equal combined ids come from equal high and low ids. |
| FuseCatalog.TypeBit | bin/fusegen-tools.py:1617-1619 | The type bit is 0 exactly for a direct fuse and 1 for every other kind. |
| FuseCatalog.SortKeySpec | bin/fusegen-tools.py:1611-1620 | When the endpoint fits 4 bits and group and count fit 8 bits, the or-ed shifts equal the radix number port id, endpoint, type bit, group, count. |
| FuseCatalog.SortKeyOrder | bin/fusegen-tools.py:1611-1620 | When the fields fit, a smaller key means exactly an earlier entry: by port id, then endpoint, then direct fuses first, then group, then count. |
| FuseCatalog.InstanceByPortId | bin/fusegen-tools.py:1567-1579 | The instance of the first IP entry with the port id, or "" when no entry has it. |
| FuseCatalog.FindInstance | bin/fusegen-tools.py:1567-1579 | The search loop with its `break` returns the specified instance. |
| FuseCatalog.DlutEntryOf | bin/fusegen-tools.py:1597-1638 | An entry carries the combined port id, the instance found for it, and its own sort key. |
| FuseCatalog.DlutEntriesOf | bin/fusegen-tools.py:1596-1639 | One entry per DLUT element, in document order. |
| FuseCatalog.GetDlut | bin/fusegen-tools.py:1596-1643 | The entry loop followed by the sort returns the specified table. |
| FuseCatalog.DlutOrdered | bin/fusegen-tools.py:1641 | The table is a permutation of the built entries sorted by key. Where the key fields fit their bits, no entry comes after one it precedes in field order. |
| FuseCatalog.HighGroupOf | bin/fusegen-tools.py:632-678 | A candidate is read without error only if its group number, name, port id and (when taken) RAM address read. It is taken exactly when the group breaks the rule and it has a port id. A taken entry carries the values read. |
| FuseCatalog.HighResults | bin/fusegen-tools.py:632-678 | The outcome of each candidate in document order. |
| FuseCatalog.ReadCandidate | bin/fusegen-tools.py:633-678 | The loop body for one candidate, with its `continue`, has the specified outcome. |
| FuseCatalog.ParseHighGroups | bin/fusegen-tools.py:629-680 | The loop appends the taken candidates to the list given, as specified, and stops at the first error. |
| FuseCatalog.HighGroupsErrStays | bin/fusegen-tools.py:632-678 | Once a candidate raises, later candidates change nothing. |
| FuseCatalog.HighGroupsGather | bin/fusegen-tools.py:629-680 | Parsing equals reading every candidate and then gathering the taken ones. |
| FuseCatalog.GatherHighSpec | bin/fusegen-tools.py:629-680 | A successful gather keeps the given list as a prefix, then adds exactly the taken entries. It succeeds only when every candidate read. |
| FuseCatalog.CountTaken | bin/fusegen-tools.py:639-661 | When every candidate reads, the taken candidates are the qualifying ones. |
| FuseCatalog.TakenEntry | bin/fusegen-tools.py:639-678 | A taken entry has a non-standard group and a cleaned name. |
| FuseCatalog.HighGroupsSpec | bin/fusegen-tools.py:629-680 | A successful parse keeps the given entries and appends one entry per qualifying candidate. Each appended entry has a non-standard group and a cleaned name. |
| FuseCatalog.CountEntry | bin/fusegen-tools.py:1788-1793 | The running-figure updates add the size, count the row, and lower the base addresses. |
| FuseCatalog.GetStats | bin/fusegen-tools.py:1726-1795 | The loop, with its look-ups that fall back to new instances and groups, computes the specified statistics. |
| FuseCatalog.Summary | bin/fusegen-tools.py:1737-1793 | A group's figures count its rows. Its base addresses are at most the start value `0xFFFFFFFF` and at most every row's address. |
| FuseCatalog.AddEntryLookup | bin/fusegen-tools.py:1754-1793 | Counting an entry changes only the figures of its own instance, kind and group. |
| FuseCatalog.StatsGroups | bin/fusegen-tools.py:1726-1795 | The figures for an instance, kind and group are exactly the summary of the DLUT rows of that group. A group without rows is absent. |
| FuseCatalog.AddEntryInstances | bin/fusegen-tools.py:1755-1761 | Counting adds the entry's instance to the keys and leaves the identity of existing instances alone. A new instance takes the entry's port id and endpoint. |
| FuseCatalog.StatsKeys | bin/fusegen-tools.py:1726-1795 | The instances reported are exactly the instances of the DLUT. |
| FuseCatalog.StatsFirst | bin/fusegen-tools.py:1756-1761 | An instance's port id and endpoint are those of its first DLUT entry. |
| FuseCatalog.StatEntry | bin/fusegen-tools.py:796-807 | A fuse yields an entry only if its stripped name has the prefix. The entry is the fuse under the stripped name. |
| FuseCatalog.StatEntries | bin/fusegen-tools.py:795-807 | The entry (or none) of each direct fuse, in document order. |
| FuseCatalog.GetFuseStats | bin/fusegen-tools.py:788-828 | The scan returns the specified lowest and highest entries. |
| FuseCatalog.LowestSpec | bin/fusegen-tools.py:808-817 | There is no lowest exactly when no fuse matches. Otherwise it is the first matching fuse with the lowest receiver address and, among those, the lowest start bit. |
| FuseCatalog.HighestSpec | bin/fusegen-tools.py:818-826 | There is no highest exactly when no fuse matches. Otherwise it is the first matching fuse with the highest receiver address and, among those, the highest start bit. |
| FuseConfig.NamedValue | bin/fusegen-tools.py:1025-1028 | A record built from a configuration line carries exactly the given name and value. |
| FuseConfig.CfgParts | bin/fusegen-tools.py:1021-1022 | The stripped line splits into at least two parts exactly when it contains `:`. |
| FuseConfig.CfgLine | bin/fusegen-tools.py:1021-1029 | A line without `:` raises IndexError. A value that `int` cannot read raises ValueError, and nothing else fails. Otherwise the record is named by the prefix plus the upper-cased key and holds the decimal value. |
| FuseConfig.CfgRows | bin/fusegen-tools.py:1006-1029 | The outcome of reading each line as a record, in order. |
| FuseConfig.MarkOf | bin/fusegen-tools.py:1008-1016 | A line opens the section exactly when it contains `== cfg.fuse ==`, and closes it exactly when it contains `===============`. |
| FuseConfig.Marks | bin/fusegen-tools.py:1006-1016 | The markers of each line, in order. |
| FuseConfig.ScanStops | bin/fusegen-tools.py:1012-1013 | Once the scan has failed or reached the end of the section, later lines change nothing. |
| FuseConfig.ReadCfgLine | bin/fusegen-tools.py:1021-1029 | The statements for one section line compute the specified record or failure. |
| FuseConfig.ScanSnoc | bin/fusegen-tools.py:1006-1029 | The scan of one more line is one step of the state machine from the scan so far. |
| FuseConfig.StepLine | bin/fusegen-tools.py:1007-1029 | The loop body with its three states and its `continue` and `break` performs one step of the state machine. |
| FuseConfig.ParseCfgOut | bin/fusegen-tools.py:981-1033 | `parse_cfg_out` on the file's lines: an unreadable file gives no records. The prefix is chosen by the file name. Then the section is scanned as specified. |
| FuseConfig.ScanCfg | bin/fusegen-tools.py:1000-1033 | The state-machine loop returns the records of the scan's specification. |
| FuseConfig.ScanLines | bin/fusegen-tools.py:1006-1029 | The loop over the lines keeps the scan of the lines seen so far as its state. |
| FuseConfig.FirstMark | bin/fusegen-tools.py:1008-1016 | The position of the first line at or after `i` with the opening (or closing) marker, or the end. |
| FuseConfig.FirstMarkSnoc | bin/fusegen-tools.py:1008-1016 | One more line moves the first marker only if it was missing and the new line carries it. |
| FuseConfig.GatherAllSpec | bin/fusegen-tools.py:1020-1029 | Gathering line outcomes succeeds exactly when every line reads, keeping one record per line. Otherwise it fails with the error of the first line that fails. |
| FuseConfig.ScanIsOutcome | bin/fusegen-tools.py:1005-1029 | The line-by-line state machine equals the direct description: find the opening line, then read every line up to the first closing line. |
| FuseConfig.ParseSectionSpec | bin/fusegen-tools.py:1015-1029 | The section reads without error into exactly one record per line. Otherwise it fails with the error of its first bad line. |
| FuseConfig.CfgOutSpec | bin/fusegen-tools.py:981-1033 | `parse_cfg_out` reads the section between the first `== cfg.fuse ==` line and the next `===============` line, with the prefix chosen by the file name. |
| FuseConfig.ScanSection | bin/fusegen-tools.py:1000-1033 | The scan of the lines equals the reading of the section they delimit. |
| FuseConfig.ScannedItems | bin/fusegen-tools.py:1005-1029 | Without an opening line, the scan gives no records. Otherwise it gives the gathered records of the lines strictly between the opening line and the first closing line after it. |
| FuseConfig.CfgOutNames | bin/fusegen-tools.py:996-998 | Every record's name is the prefix chosen by the file name followed by an upper-cased key. |
| FuseConfig.OvrdParts | bin/fusegen-tools.py:1049-1060 | The stripped line splits into at least two parts exactly when it contains `=`. |
| FuseConfig.OvrdLine | bin/fusegen-tools.py:1049-1069 | Blank and `#` lines yield nothing. An entry line without `=` raises IndexError. A record holds the cleaned name and the `process_value` reading of its value. |
| FuseConfig.OvrdRows | bin/fusegen-tools.py:1048-1069 | The outcome of each line, in order. |
| FuseConfig.ReadOvrdLine | bin/fusegen-tools.py:1049-1069 | The loop body, with its two `continue`s, computes the specified outcome. |
| FuseConfig.ParseDefaultOvrd | bin/fusegen-tools.py:1035-1071 | `parse_default_ovrd` on the file's lines: an unreadable file gives no records, otherwise the loop returns the specified records. |
| FuseConfig.GatherSnoc | bin/fusegen-tools.py:1048-1069 | Gathering one more line appends its record, skips a non-entry line, or fails. |
| FuseConfig.GatherSpec | bin/fusegen-tools.py:1048-1069 | Gathering succeeds exactly when every line reads. It then keeps one record per entry line, each from some line. |
| FuseConfig.OvrdEntry | bin/fusegen-tools.py:1049-1069 | A line that reads yields a record exactly when it is an entry line. Such a line has `=`, and its record has a cleaned name. |
| FuseConfig.OvrdCount | bin/fusegen-tools.py:1048-1069 | When every line reads, the records are one per entry line, and every entry line has `=`. |
| FuseConfig.OvrdClean | bin/fusegen-tools.py:1063 | Every record read carries a cleaned name. |
| FuseConfig.DefaultOvrdSpec | bin/fusegen-tools.py:1035-1071 | A successful read has `=` on every entry line, one record per entry line, and only cleaned names. |
| CompareFiles.CompareLines | bin/comparefiles.py:63-86 | The two loops and the optional sort return exactly the three specified lists. |
| CompareFiles.CompareMembers | bin/comparefiles.py:63-86 | A line is in the first list exactly when only the first file has it. It is in the second list exactly when only the second file has it, and in the common list exactly when both have it. |
| CompareFiles.SortedSame | bin/comparefiles.py:81-84 | Sorting keeps exactly the same lines. |
| CompareFiles.ComparePartition | bin/comparefiles.py:68-74 | Each line of the first file lands in exactly one of the first-only and common lists. |
| CompareFiles.CompareShape | bin/comparefiles.py:68-84 | No list repeats a line. Sorted lists are in ascending order. Unsorted lists keep the order in which lines first occur in their file. |
| CollectFiles.ProcessLine | bin/collectfiles.py:22-42 | A line without `:` or without `(` yields "". The name is never longer than the line. |
| CollectFiles.ProcessLineOf | bin/collectfiles.py:22-42 | The name between `: ` and the last ` (` of a plugin line is recovered exactly. |
| CollectFiles.Headers | bin/collectfiles.py:67-70 | The summary header, if any, that each stripped line starts with. |
| CollectFiles.Items | bin/collectfiles.py:68-89 | The name cut from each stripped line. |
| CollectFiles.PluginNames | bin/collectfiles.py:44-107 | Without either flag, no names are collected. |
| CollectFiles.DoneStays | bin/collectfiles.py:102-104 | Once the walk has ended, later lines change nothing. |
| CollectFiles.First | bin/collectfiles.py:67-97 | The first line at or after `from` that starts with the given header, or the end. |
| CollectFiles.IdleUntil | bin/collectfiles.py:69-78 | Before the first wanted summary header, lines are skipped. The walk goes on in the 32-bit section when 32-bit names are asked for, else in the 64-bit one. |
| CollectFiles.CollectUntil | bin/collectfiles.py:79-101 | Inside a section, every non-empty name up to the section's end header is collected once. |
| CollectFiles.Section64 | bin/collectfiles.py:93-101 | The 64-bit section collects the names up to the all-projects header. |
| CollectFiles.Section32 | bin/collectfiles.py:79-92 | The 32-bit section collects the names up to the 64-bit header. With both flags, it goes on through the 64-bit section. |
| CollectFiles.RunSection | bin/collectfiles.py:61-104 | The state machine collects exactly the distinct non-empty names of the requested sections. |
| CollectFiles.PluginNamesSpec | bin/collectfiles.py:44-107 | With a flag given, the names are exactly the distinct non-empty names found in the requested sections, in order. The list has no repeats and no empty name. |
| CollectFiles.HeadersDiffer | bin/collectfiles.py:47-49 | The three summary headers are distinct. |
| CollectFiles.InitLine | bin/collectfiles.py:69-78 | The `STEP_INIT` branch moves to the 32-bit or 64-bit section on the wanted header, setting the matching end header. |
| CollectFiles.In32Line | bin/collectfiles.py:79-92 | The 32-bit branch collects the line's name, or on the 64-bit header moves on (with both flags) or ends. |
| CollectFiles.In64Line | bin/collectfiles.py:93-101 | The 64-bit branch collects the line's name, or on the all-projects header ends. |
| CollectFiles.HandleLine | bin/collectfiles.py:68-104 | One loop iteration performs one step of the specified walk. |
| CollectFiles.ExtractPluginNames | bin/collectfiles.py:44-107 | `extract_plugin_names` returns exactly the specified names. |
| FileUtilities.IsLongPathIff | bin/file_utilities.py:191-200 | A path is long exactly when it starts with `\\?\`. A `\\?\UNC\` path is one of those. |
| FileUtilities.MakeLongPath | bin/file_utilities.py:202-213 | The result is always a long path. A path already long is returned as it is. |
| FileUtilities.MakeLongPathIdempotent | bin/file_utilities.py:202-213 | Making a path long twice is the same as once. |
| FileUtilities.ShortPathOfLong | bin/file_utilities.py:202-213 | A short path not beginning with `UNC\` can be recovered from its long form. |
| FileUtilities.CopyNewerFile | bin/file_utilities.py:47-127 | The branches return the result of the decision table. A copy runs exactly when one is decided outside a dry run, in the decided direction. |
| FileUtilities.OneWay | bin/file_utilities.py:68-84 | Outside sync mode, the only direction is from file one. The call aborts exactly when file one is missing. It copies exactly when file two is missing or older by more than a second. |
| FileUtilities.NeverOverwritesNewer | bin/file_utilities.py:68-113 | A copy never overwrites a file that is not older than its source by more than a second. Copying from file two happens only in sync mode. |
| FileUtilities.SyncSymmetric | bin/file_utilities.py:85-113 | In sync mode, swapping the two files swaps the copy direction and keeps aborts and skips. |
| FileUtilities.CloseTimesSkip | bin/file_utilities.py:79-125 | Files within a second of each other are skipped. A dry run reports a copy it would make as copied. |
| CdbFuncs.ReplaceFirstPrefix | bin/cdbfuncs.py:258 | Replacing the first occurrence of a pattern that the text starts with swaps exactly that prefix. |
| CdbFuncs.PrefixesExclusive | bin/cdbfuncs.py:213-221 | No name is both a DevBank and a RegLayout name. |
| CdbFuncs.CompanionSwaps | bin/cdbfuncs.py:255-266 | The companion is "" exactly for names that are neither kind. A DevBank name becomes the RegLayout name with the same rest, and the other way round. |
| CdbFuncs.CompanionInvolution | bin/cdbfuncs.py:255-266 | The companion of the companion of a bank file name is the name itself. |
| CdbFuncs.NthIndex | bin/cdbfuncs.py:73-78 | The position of the `n`-th occurrence of a character, with `n - 1` before it, or -1. |
| CdbFuncs.NthIndexFound | bin/cdbfuncs.py:73-79 | The `n`-th occurrence exists exactly when the text has at least `n` of the character. |
| CdbFuncs.NthIndexPrefix | bin/cdbfuncs.py:73-78 | An occurrence found in a prefix is found at the same place in the whole text. |
| CdbFuncs.ScoreCount | bin/cdbfuncs.py:71-78 | The counting loop with its `break` reaches the count exactly when there are enough underscores. The trim position is then that underscore's index. |
| CdbFuncs.Unpad | bin/cdbfuncs.py:172-173 | A field loses one leading zero only if it is longer than one character. Empty stays empty. |
| CdbFuncs.Joined | bin/cdbfuncs.py:169-175 | A non-empty list of fields joins into text ending in `_`. |
| CdbFuncs.NameStart | bin/cdbfuncs.py:127-142 | The name has no start exactly when neither `devbank_` nor `reglayout_` occurs. |
| CdbFuncs.TrimBankfileName | bin/cdbfuncs.py:125-178 | The statements of `trim_bankfile_name` compute the specified prefix. |
| CdbFuncs.JoinFields | bin/cdbfuncs.py:169-178 | The loop un-pads each field and appends it followed by `_`. |
| CdbFuncs.SearchPrefixEmpty | bin/cdbfuncs.py:132-163 | The prefix is empty exactly when no bank marker occurs, or the rest (dots read as underscores) has fewer than three underscores. |
| CdbFuncs.SearchPrefixCaseless | bin/cdbfuncs.py:127 | Names equal up to case give the same prefix. |
| CdbFuncs.SplitCount | bin/cdbfuncs.py:170 | Splitting on a character gives one more piece than there are occurrences. |
| CdbFuncs.JoinedShape | bin/cdbfuncs.py:169-175 | Fields without `_` join into text with exactly one `_` per field. Every other character comes from a field. |
| CdbFuncs.SearchPrefixShape | bin/cdbfuncs.py:125-178 | A non-empty prefix ends in `_` and holds exactly three underscores, no dot and no upper-case letter. |
| CdbFuncs.BeforePci | bin/cdbfuncs.py:85-87 | The text before the first `pci_` is a prefix of the name. |
| CdbFuncs.CanDisableAsWrittenFails | bin/cdbfuncs.py:56-66 | As written, `can_disable` raises exactly when the first `Lane` ends the name. Otherwise it agrees with the intended rule. |
| CdbFuncs.CanDisableLaneAtEnd | bin/cdbfuncs.py:59-61 | `DevBank_Lane` makes the written code index past the end. |
| CdbFuncs.DisableableNeedsDigit | bin/cdbfuncs.py:53-102 | Only names with a non-zero digit are candidates. With `Lane`, exactly the character after the first `Lane` decides. Without it, fewer than seven underscores rule a name out. |
| CdbFuncs.CanDisable | bin/cdbfuncs.py:53-102 | `can_disable` (with the intended guard) returns exactly the specified rule. |
| CdbFuncs.UnderscoreCheck | bin/cdbfuncs.py:69-97 | The branch for names without `Lane`: a non-zero digit from the seventh underscore up to `pci_`. |
| CdbFuncs.ScanDigits | bin/cdbfuncs.py:89-95 | The scan finds a non-zero digit exactly when the text has one. |
| CdbFuncs.LastToken | bin/cdbfuncs.py:301-313 | The last element of the line that is a transform (or CRIF) token, or -1 when none is. |
| CdbFuncs.DeleteChars | bin/cdbfuncs.py:311 | `translate(None, '():')` keeps only characters of the text outside the deleted set. |
| CdbFuncs.TokenSnoc | bin/cdbfuncs.py:301-313 | A later token overrides the transform (or CRIF) name found so far. |
| CdbFuncs.ParseMapLine | bin/cdbfuncs.py:296-318 | The element loop yields a pair exactly when it finds both a transform name and a CRIF name. |
| CdbFuncs.LineEntryShape | bin/cdbfuncs.py:300-318 | A pair's transform name is a token without spaces. Its CRIF name is non-empty and stripped, without parentheses or colons. |
| CdbFuncs.MapEntries | bin/cdbfuncs.py:293-320 | At most one pair per line of the file. |
| CdbFuncs.GetDevbankMap | bin/cdbfuncs.py:269-324 | A name that is not a bank file, or a missing file, gives no pairs. Otherwise the result is the pairs of the DevBank file's lines. |
| CdbFuncs.MapEntriesFromLines | bin/cdbfuncs.py:293-318 | Every pair comes from a line holding `// * `. |
| Tags.FirstTagline | bin/tags.py:33-41 | The index of the first line starting with `tags:`, or -1 when there is none. |
| Tags.GetTags | bin/tags.py:25-43 | The loop with its `break` returns the sorted tags of the first tag line. |
| Tags.FirstTaglineAt | bin/tags.py:33-41 | A tag line with none before it is the first tag line. |
| Tags.TagsOfWords | bin/tags.py:40-43 | The tags are sorted, and each is a non-empty word without whitespace. |
| Tags.ContainsTag | bin/tags.py:55-59 | `contains_tag` is true exactly when the tag is in the list. |
| Tags.Hits | bin/tags.py:64-69 | Whether each file's tags hold the tag. |
| Tags.GetFilesByTag | bin/tags.py:62-75 | The loop returns exactly the specified selection. |
| Tags.FilesByTagMembers | bin/tags.py:62-75 | A file is returned exactly when it is listed and whether its tags hold the tag equals the requested flag. |
| Tags.FilesByTagPartition | bin/tags.py:62-75 | The files with the tag and the files without it together are exactly the list. |
| Tags.FilesByTagDistinct | bin/tags.py:62-75 | A list without repeats gives a selection without repeats. |
| Tags.BuildTagline | bin/tags.py:77-85 | The loop builds `tags:`, each tag after a space, and a newline. |
| Tags.SplitWsSpaced | bin/tags.py:40 | Words written with a space before each split back into the same words. |
| Tags.TagTextOfLine | bin/tags.py:37-40 | A built line is a tag line, and the text after `tags:` is the spaced tags. |
| Tags.TaglineRoundTrip | bin/tags.py:37-43 | Round trip: `get_tags` reads back exactly the sorted words that `build_tagline` wrote. |
| Tags.ReplaceFirstTagline | bin/tags.py:215-219 | The replacement loop with its `break` rewrites the file as specified. |
| Tags.ReplaceTaglineSpec | bin/tags.py:215-219 | Only the first tag line is replaced, and the file keeps its length. A file without a tag line is unchanged. The new line stays the first tag line. |
| Tags.RemoveFirst | bin/tags.py:250 | `list.remove` takes one occurrence of the tag away and leaves a list without it as it is. |
| Tags.UpdatedTags | bin/tags.py:195-219 | A file with a tag line afterwards reads as the old tags with the tag added, or with one occurrence removed. A file without a tag line is unchanged. |
| Tags.UpdateOneFile | bin/tags.py:196-232 | One file of the add or remove loop: back up, then (unless empty) rewrite and count it. |
| Tags.TagCommandAsWritten | bin/tags.py:184-233 | The add and remove commands as written: the loop over the selected files, stopping altogether at an empty file. |
| Tags.EmptyFileStops | bin/tags.py:209-212 | As written, an empty file ends the whole command after its backup. No later file is updated. |
| Tags.TagCommand | bin/tags.py:184-233 | The commands as intended: an empty file is skipped and the loop goes on. |
| Tags.ApplyUntouched | bin/tags.py:195-232 | Files that are neither selected nor backups of selected files are left alone. |
| Tags.ApplyVisits | bin/tags.py:195-232 | In the intended loop, every selected non-empty file ends up rewritten. |
| Tags.TagCommandUpdatesAll | bin/tags.py:184-233 | With the intended skip, every listed non-empty file that lacks (or, for remove, has) the tag ends up rewritten with the tag added (or removed). |
| CollectTests.ScanSnoc | bin/collecttests.py:153-174 | One more tail line either finds the summary marker or, after it, raises the result to the line's rank. |
| CollectTests.AfterMarkerSpec | bin/collecttests.py:153-160 | Without a `### SUMMARY` line nothing is classified. Otherwise exactly the lines after the first marker line are classified. |
| CollectTests.AfterMarkerSnoc | bin/collecttests.py:153-160 | A line after the marker joins the lines to classify. |
| CollectTests.ScanClosed | bin/collecttests.py:151-174 | The line-by-line state machine equals: find the first marker, then take the highest rank of the lines after it. |
| CollectTests.PeakSpec | bin/collecttests.py:162-174 | The result is at least `RESULT_ERROR` and at least every classified line's rank. It is `RESULT_ERROR` or the rank of some classified line. |
| CollectTests.ScanMonotone | bin/collecttests.py:153-174 | Reading more lines never lowers the result and never leaves the summary section. |
| CollectTests.RankOther | bin/collecttests.py:163-174 | A classified line ranks as TIMEOUT exactly when it starts with `TIMEOUT: `. It ranks as SUCCESS exactly when it starts with neither marker. |
| CollectTests.LineIsMarker | bin/collecttests.py:155 | The marker test finds `### SUMMARY` anywhere in the line. |
| CollectTests.Classify | bin/collecttests.py:163-174 | Each branch raises the result to the line's rank, and keeps the result text in step. |
| CollectTests.ExtractResult | bin/collecttests.py:119-184 | `extract_result` returns the specified result and directory name. |
| CollectTests.ExtractedResult | bin/collecttests.py:136-183 | For a path with `test/` and `/test.log`, the result is the highest rank after the first marker. The directory is named test name, branch, result text, time stamp. |
| CollectTests.NoSummaryIsError | bin/collecttests.py:120-184 | A log without a summary line gives `RESULT_ERROR`, with an `ERROR` directory name or none. |
| CollectTests.SummaryRanks | bin/collecttests.py:151-174 | Any line after the summary makes the result at least SUCCESS. The result is the highest rank among those lines. |
| CollectTests.TestNameNoSep | bin/collecttests.py:147-148 | The test name holds no path separator: each becomes `-`. |
| CollectTests.ProcessLog | bin/collecttests.py:194-199 | A log is processed exactly when its result is not `RESULT_ERROR`. |
| CollectTests.CollectLogs | bin/collecttests.py:188-212 | `collect_logs` counts exactly the logs whose result is not `RESULT_ERROR`. |
| CollectTests.ProcessedIff | bin/collecttests.py:136-199 | A log is processed exactly when its path has `test/` and `/test.log` and at least one line follows its summary marker. |
| CollectDefaults.TargetPaths | bin/collectdefaults.py:248-254 | The loop gives one target per found file: the target directory joined with the parent directory's name, `_` and the file name. |
| CollectDefaults.TargetInDirectory | bin/collectdefaults.py:250-254 | Every copy lands directly in the target directory under its target name. |
| CollectDefaults.TargetNameOf | bin/collectdefaults.py:250-252 | The file `f` in directory `x` under any path is copied as `x_f`. |
| CollectDefaults.TargetsCollide | bin/collectdefaults.py:248-258 | Files of the same name in directories of the same name get the same target, so the later copy overwrites the earlier. |
| LogInstances.MatchedKeys | bin/loginstances.py:45-60 | One key per matching line. |
| LogInstances.MatchedKeysSnoc | bin/loginstances.py:45-60 | A matching line adds its newline-stripped text as a key. Other lines add nothing. |
| LogInstances.LineMatches | bin/loginstances.py:46-51 | The search finds the string in the line, both lower-cased when case is ignored. |
| LogInstances.CountInstances | bin/loginstances.py:44-60 | The dictionary loop, with its `KeyError` fallback to 0, counts each key of the matching lines. |
| LogInstances.MatchedOccurrences | bin/loginstances.py:45-60 | A key occurs as often as there are matching lines with that text. |
| LogInstances.MatchedKeysMembers | bin/loginstances.py:45-60 | A key is present exactly when some matching line has that text. |
| LogInstances.InstancesSpec | bin/loginstances.py:44-60 | The dictionary holds exactly the texts of matching lines. Each count is the number of matching lines with that text. The counts add up to the number of matching lines. |
| GenUrl.ConvertUrl | bin/genurl.py:10-24 | After `simics-local` becomes `simics-repos`, a URL without `simics-repos` is rejected. Otherwise the result is the generic root followed by the URL from an occurrence of `simics-repos`. |
| GenUrl.ConvertUrlSuffix | bin/genurl.py:15-23 | The suffix kept starts at the first occurrence of `simics-repos`. |
| GenUrl.ConvertUrlRejects | bin/genurl.py:12-18 | A URL with neither repository name is not valid. |
| GenUrl.ConvertUrlFixed | bin/genurl.py:10-24 | A generic URL without `simics-local` converts to itself. |
| GenUrl.ConvertUrlMoves | bin/genurl.py:10-24 | A generic URL that still holds `simics-local` is changed by conversion. |
| GenUrl.ConvertUrlAgain | bin/genurl.py:10-24 | Converting a converted URL again gives it back exactly when it has no `simics-local`. |
| GenUrl.ConvertUrlLeavesLocal | bin/genurl.py:12 | Replacement can create a new `simics-local` out of overlapping text, so conversion is not always idempotent. |
| ProjSetup.EntryVersion | bin/projsetup.py:48-60 | A path without `simics-` raises ValueError (from `rindex`). Every failure is ValueError. |
| ProjSetup.ParseEntry | bin/projsetup.py:48-60 | The statements for one entry compute the specified outcome. |
| ProjSetup.EntryVersionOfInstall | bin/projsetup.py:48-60 | An installation path ending in `simics-A.B.C` reads as version A.B.C. |
| ProjSetup.Outcomes | bin/projsetup.py:44-60 | One outcome per globbed path. |
| ProjSetup.SelectSnoc | bin/projsetup.py:44-66 | The selection over one more path is one step from the selection so far. |
| ProjSetup.SelectErrStays | bin/projsetup.py:48-60 | Once an entry raises, later entries change nothing. |
| ProjSetup.Advance | bin/projsetup.py:45-66 | One loop iteration counts the entry and keeps it when it is newer by the component test. |
| ProjSetup.SelectInstall | bin/projsetup.py:44-66 | The loop as written, with its component-wise test, returns the specified selection. |
| ProjSetup.SelectShape | bin/projsetup.py:44-66 | Every entry is counted. The kept path is the entry at the pass count, and its version is the kept version. With no pass, nothing is kept. |
| ProjSetup.SelectErrIff | bin/projsetup.py:48-60 | The loop raises exactly when some entry raises. |
| ProjSetup.AtLeastOrder | bin/projsetup.py:61 | The component-wise test is reflexive and transitive. |
| ProjSetup.LexAtLeastOrder | bin/projsetup.py:61 | Version order is reflexive, transitive and total. |
| ProjSetup.SelectMonotone | bin/projsetup.py:61-66 | Under a reflexive, transitive test, the kept version only grows as entries are read. |
| ProjSetup.SelectMaximum | bin/projsetup.py:44-66 | Under a total order, the kept version is at least every version read. |
| ProjSetup.SelectLatestMaximum | bin/projsetup.py:44-66 | With version order, the kept version is the latest of all entries. |
| ProjSetup.SelectInstallMissesNewer | bin/projsetup.py:61 | As written, 6.0.51 is kept over 6.1.0. Version order keeps 6.1.0. |
| SummarizeTests.FirstOccurrence | bin/summarizetests.py:160-173 | The first occurrence of a marker lies inside the text, and no earlier text holds the marker. |
| SummarizeTests.Fields | bin/summarizetests.py:159-186 | A script line yields an entry exactly when it has ` (elapsed: ` followed later by `s,`. The script is the text before the first ` (elapsed: `, and the seconds are the text up to the first `s,` after it. |
| SummarizeTests.SortSnoc | bin/summarizetests.py:138-193 | One more tail line either finds the summary marker or, after it, files the line's entry (if any) under its kind. |
| SummarizeTests.Collected | bin/summarizetests.py:147-186 | At most one entry per classified line. |
| SummarizeTests.CollectedSnoc | bin/summarizetests.py:147-186 | A line adds its entry when it has one. |
| SummarizeTests.SortClosed | bin/summarizetests.py:134-193 | After the loop, the timeouts, failures and successes are exactly the entries after the first summary marker with that kind, in order. |
| SummarizeTests.KindsPartition | bin/summarizetests.py:188-193 | Every entry lands in exactly one of the three lists. |
| SummarizeTests.FieldsOf | bin/summarizetests.py:159-186 | The statements that cut out the script and the seconds compute the specified entry or skip. |
| SummarizeTests.LineEntry | bin/summarizetests.py:147-186 | One classified line: its kind from the `TIMEOUT: ` or `FAILURE: ` prefix (else a success with nine characters dropped), then its fields. |
| SummarizeTests.ExtractResults | bin/summarizetests.py:106-196 | `extract_results` returns the specified result, or none for a path without `/test/` or `/0/test.log`. |
| SummarizeTests.ExtractedLists | bin/summarizetests.py:134-193 | A result's three lists are the collected entries split by kind, and together they hold every entry. |
| SummarizeTests.ExtractedName | bin/summarizetests.py:118-129 | The test name is the path from just after the separator before `test` up to `/0/test.log`. It is empty when the log marker comes first. |
| SummarizeTests.Fmod | bin/summarizetests.py:328-339 | A line without `'fmod': '` gives `(BMOD)`. Otherwise the fmod is the text after it up to the next quote or the end, and holds no quote. |
| SummarizeTests.ParamText | bin/summarizetests.py:341-346 | The parameter text exists exactly when the line has `preset_params `, and it is a suffix of the line. |
| SummarizeTests.MatchingLines | bin/summarizetests.py:304-315 | One stripped line per line holding the search string. |
| SummarizeTests.Fmods | bin/summarizetests.py:326-339 | One fmod per run-target line. |
| SummarizeTests.FmodsStep | bin/summarizetests.py:326-353 | One more run-target line adds its fmod, and its parameter text when it has one. |
| SummarizeTests.ParamTexts | bin/summarizetests.py:341-353 | At most one parameter text per line. |
| SummarizeTests.Unpack3 | bin/summarizetests.py:211 | Unpacking into three names fails exactly when two values were returned. |
| SummarizeTests.UnpackFailsWithoutRunTarget | bin/summarizetests.py:211-324 | As written, a log without a run-target line makes `collect_logs` raise ValueError on unpacking. |
| SummarizeTests.ParamsAndFmods | bin/summarizetests.py:317-355 | As intended: one run-target line and one fmod per line holding `[sim info] run_target(`, each fmod read from its line, and at most one parameter text per line. |
| SummarizeTests.ParamsAndFmodsAgree | bin/summarizetests.py:317-355 | Where the written code returns three values, they are the intended ones. Where it returns two, the intended triple is empty. |
| SummarizeTests.GetMatchingLines | bin/summarizetests.py:304-315 | The read loop keeps exactly the stripped lines holding the search string. |
| SummarizeTests.LineFmod | bin/summarizetests.py:328-339 | The statements for one line compute its fmod. |
| SummarizeTests.LineParams | bin/summarizetests.py:341-346 | The statements for one line compute its parameter text. |
| SummarizeTests.GetParamsAndFmods | bin/summarizetests.py:317-355 | The loop returns the intended triple. |
| SummarizeTests.Results | bin/summarizetests.py:198-212 | At most one result per log. Each result has one fmod per run-target line, read from that line. |
| SummarizeTests.ResultsStep | bin/summarizetests.py:202-212 | One more log appends its result, if it has one. |
| SummarizeTests.CollectLog | bin/summarizetests.py:204-211 | One log: its result with the run-target lines and fmods attached. |
| SummarizeTests.CollectLogs | bin/summarizetests.py:198-212 | The log loop returns exactly the specified results. |
| SummarizeTests.Totals | bin/summarizetests.py:214-221 | The totals are the sums of successes, failures and timeouts. Together they add up to all classified entries. |
| SummarizeTests.Scripts | bin/summarizetests.py:416-427 | The script name of each entry. |
| SummarizeTests.CountAll | bin/summarizetests.py:409-413 | Counting more keys into a dictionary of counts gives the counts of all keys seen. |
| SummarizeTests.CountDicts | bin/summarizetests.py:403-427 | The fmod, failure and timeout dictionaries count every fmod, failed script and timed-out script over all results. |
| SummarizeTests.CountDictsSpec | bin/summarizetests.py:403-427 | A key is in a dictionary exactly when it occurs. Its count is its number of occurrences, at least 1, and the counts add up to the number of keys. |
| Sorting.SortBy | bin/fusegen-tools.py:1641 | `sorted(..., key=...)`: the result holds the same records, each as often as before. |
| Sorting.SortBySorted | bin/fusegen-tools.py:1641 | The result of the sort is ordered by the key. |
| Sorting.SortByStable | bin/fusegen-tools.py:1641 | The sort is stable: records with equal keys keep their relative order. |
| Sorting.SortBySortedNoop | bin/fusegen-tools.py:1397 | Sorting a list that is already ordered by the key leaves it unchanged. |
| StrOrder.LexTotal | bin/comparefiles.py:82-84 | Any two strings are comparable in Python's string order. |
| StrOrder.LexTrans | bin/comparefiles.py:82-84 | Python's string order is transitive. |
| StrOrder.LexAntisym | bin/comparefiles.py:82-84 | Two strings that are each at most the other are equal. |
| StrOrder.SortStrings | bin/comparefiles.py:82-84 | `sorted` on strings gives an ordered permutation of its input. |
| StrOrder.OrderedUnique | bin/comparefiles.py:82-84 | Two ordered permutations of the same strings are equal, so the sorted result is determined by the contents alone. |
| Counter.Counts | bin/loginstances.py:50-60 | The keys of the counting dictionary are exactly the lines counted. |
| Counter.CountsSnoc | bin/loginstances.py:53-60 | Counting one more line adds one to its count, starting from 0 when the `KeyError` is raised, and leaves other counts alone. |
| Counter.CountsOccurrences | bin/loginstances.py:50-60 | Each count is the number of occurrences of its key, and is positive. |
| Counter.CountsTotal | bin/loginstances.py:50-60 | The counts add up to the number of lines counted. |
| Dedup.DistinctSpec | bin/collectfiles.py:88-101 | A membership-guarded append keeps exactly the wanted items, without repeats, in the order of their first occurrence. |
| Dedup.AddAllDistinct | bin/collectfiles.py:88-101 | Guarded appends over a second list continue the result of the first, so the work can go list by list. |
| PyStr.Find | bin/cdbfuncs.py:56 | `str.find`: -1 when the text does not occur, otherwise the index of its first occurrence. |
| PyStr.RFind | bin/collectfiles.py:32 | `str.rfind`: -1 when the text does not occur, otherwise the index of its last occurrence. |
| PyStr.FindCharIff | bin/cdbfuncs.py:552 | Searching for a character finds it exactly when it is in the text. |
| PyStr.Strip | bin/cdbfuncs.py:313 | `str.strip()`: the result neither starts nor ends with whitespace. |
| PyStr.StripNoop | bin/cdbfuncs.py:313 | Stripping text that neither starts nor ends with whitespace leaves it unchanged. |
| PyStr.StripCharRuns | bin/loginstances.py:53 | `str.strip(c)` removes exactly the leading and trailing runs of `c`. |
| PyStr.Lower | bin/cdbfuncs.py:127 | `str.lower()` maps each character and keeps the length. |
| PyStr.SplitChar | bin/cdbfuncs.py:170 | `str.split(c, limit)`: at least one piece, at most `limit + 1` when the limit is not negative, the whole text when `c` does not occur, and at least two pieces when it does. |
| PyStr.SplitCharJoin | bin/cdbfuncs.py:170 | Splitting the pieces joined by `c` gives the pieces back when none of them holds `c`. |
| PyStr.SplitCharPieceFree | bin/cdbfuncs.py:170 | No piece before the last allowed one holds the separator. |
| PyStr.SplitWs | bin/tags.py:40 | `str.split()`: the words are non-empty and hold no whitespace. |
| PyStr.ReplaceAllChar | bin/cdbfuncs.py:148 | Replacing one character by another maps every occurrence and nothing else. |
| PyStr.ReplaceAllNoop | bin/collectdefaults.py:56 | `str.replace` leaves text without the pattern unchanged. |
| PyStr.ReplaceAllChanges | bin/cdbfuncs.py:148 | Replacing a pattern that occurs by a different text of the same length changes the text. |
| PosixPath.LastSlash | bin/collectdefaults.py:250-252 | The index of the last `/`, or -1 when the path has none. |
| PosixPath.BasenameShape | bin/collectdefaults.py:250 | `os.path.basename` holds no `/` and ends its path, right after a `/` when it is not the whole path. |
| PosixPath.JoinBasename | bin/collectdefaults.py:254 | A name without `/` joined onto a directory is the base name of the result. |
| PosixPath.JoinDirBase | bin/collectdefaults.py:250-254 | In a path without doubled slashes, joining `dirname` and `basename` gives the path back. |
| PosixPath.DirnameDeep | bin/collectdefaults.py:252 | The directory name of a path whose last `/` follows another character is the text before that `/`. |

## Left out

- File, console and process I/O: opening, reading and writing files, `print`, `glob`, `os.system`, `subprocess`, `copyfile`, `makedirs` and argparse. Files are given as sequences of lines. What a function writes is its result. A file that cannot be opened is an explicit input where the scripts branch on it.
- XML reading through ElementTree (`parse_for_*`, `parse_constants`, `parse_lockbits`, `get_lockout_values`, `load_xml_items`, and the element access in `get_dlut`, `get_ip_info`, `get_fuse_stats` and `parse_high_groups` of bin/fusegen-tools.py): a foreign library. The model takes the records and attributes that reading yields as inputs.
- The writers and reports of bin/fusegen-tools.py with no logic beyond formatting a file: `write_csv_file`, `write_compute_file`, `write_groups_csv_file`, `make_patch`, `parse_matches`, `dump_dlut`, `dump_ip_info`, `dump_blob`, `print_stats`, `get_pcode_stats` and `get_dcode_stats`.
- `load_text_blob` and `load_int_blob`, together with the hex text that `bytes.fromhex` and `.hex()` convert: blobs are byte sequences here.
- The warning path of `process_value` for a value wider than `bit_length`: it uses `sys`, which the script never imports, and no caller passes `bit_length`.
- `PatchUpdate.UpdatePatch`: returns the lines written. The file they go to is not modelled, so neither is the defect that the script opens the global `target_file` instead of its `target_path` parameter.
- `FuseBlob.ImportBlob`:
  - an invalid group is reported and the import carries on, as the script does;
  - the output file left unclosed is not modelled.
- `compare_patch` in fusegen-XML mode (`load_fusegen`), which reads its records with `load_xml_items`.
- Aliasing: records the scripts update in place are elements of a sequence updated by index. Where several list entries refer to one record (the pairs of reconcile, `found_item` in `merge_patches`, the picked records of `filter_values` and `parse_high_groups`), an entry holds the record's position.
- `tail()`: reading the last lines of a log is not modelled. The last lines are a parameter.
- `os.path.getmtime` and `strftime`: the time stamp is a parameter of `extract_result`.
- `git` subprocess calls: the branch name is a parameter.
- Floating point: elapsed seconds are kept as the text that `float()` reads. `totalseconds`, the sort by seconds, `get_top_results` and the `ValueError` of a malformed float are not modelled.
- `ast.literal_eval` of the parameter dictionaries (`param_dicts` and the `params_dict` count at bin/summarizetests.py:429-436): the model would need a Python literal parser.
- `TestResult` is a value filled in by one function, not an object updated field by field.
- Case mapping and `isdigit` cover ASCII only. Unicode digits and case rules are not modelled.
- Paths are POSIX paths. Windows `ntpath` rules for `join`, `basename` and `dirname` are not modelled. The long-path prefixes of bin/file_utilities.py are modelled as text.
- The logging of `can_disable` (`append_logfile`) and the CRIF lookups through `cdb_classes` and `crif.parse` in bin/cdbfuncs.py.
- The `-1` test after `rindex` in bin/projsetup.py:48-51 is dead, because `rindex` raises instead. The raise is modelled and stops the loop.
- `CollectTests`: `is not` on the small integer result codes is modelled as `!=`, which is what CPython's interned small integers give.
- The scripts outside the core: foldersync, codetmpclean, gitbranches, refupdates, saferemove, upload, packagefusegen, mirurl, nostamps, packbuild, testprep and transtrip. They are I/O wrappers, shell scripts or regex substitutions with no logic to state.

## Findings

| source | as written | input that shows it | evidently intended | confidence | as-written member | corrected member |
|---|---|---|---|---|---|---|
| bin/fusegen-tools.py:889-892 | With a prefix filter, `load_patch_items` calls `name.descrip_part(prefix)`, and `name` is not defined. | Any patch file with a data row, loaded with a non-empty prefix, raises `NameError` at its first row. | Keep only the rows whose name starts with the prefix (`descrip_part.startswith(prefix)`). | not executed | PatchFormat.ParseRowAsWritten, PatchFormat.PrefixFailsAsWritten | PatchFormat.ParseRow, PatchFormat.KeepPrefix, PatchFormat.LoadRowsFiltered |
| bin/cdbfuncs.py:60-61 | `can_disable` guards `filename[digit_index]` with `len(filename) >= digit_index`, which lets the index equal the length. | `"DevBank_Lane"`: the first `Lane` ends the name, and the subscript raises `IndexError`. | Guard with `>`, so that a name ending in `Lane` is not a candidate. | not executed | CdbFuncs.CanDisableAsWrittenFails, CdbFuncs.CanDisableLaneAtEnd | CdbFuncs.CanDisable, CdbFuncs.DisableableNeedsDigit |
| bin/tags.py:209-212 | The `break` meant to skip an empty file leaves the loop over all files. | Two files lacking the tag, the first of them empty: the second is never rewritten. | Skip the empty file (`continue`) and go on with the next one, as the warning says. | not executed | Tags.TagCommandAsWritten, Tags.EmptyFileStops | Tags.TagCommand, Tags.TagCommandUpdatesAll |
| bin/projsetup.py:61 | The latest version is chosen by a componentwise test: every component must be at least the kept one. | Installations 6.0.51 and then 6.1.0: 6.1.0 is not taken, since 0 < 51. | Compare versions in order (major, then minor, then patch) and keep the greatest. | not executed | ProjSetup.SelectInstall, ProjSetup.SelectInstallMissesNewer | ProjSetup.SelectLatestMaximum |
| bin/summarizetests.py:320-324 | `get_params_and_fmods` returns two lists when no `run_target` line matches, and its caller at line 211 unpacks three. | A log with results but no `[sim info] run_target(` line stops `collect_logs` with `ValueError`. | Return the three lists, all empty. | not executed | SummarizeTests.ParamsAndFmodsAsWritten, SummarizeTests.UnpackFailsWithoutRunTarget | SummarizeTests.ParamsAndFmods, SummarizeTests.ParamsAndFmodsAgree |
