# json2stems in Dafny

`json2stems.py` turns two already-parsed JSON documents into a flat "stem" file. One document is the file-metadata table; its `files` object maps file-ids to `realpath`s. The other is a netlist whose `modulesp` list holds modules with `addr`, `name`, `loc` and `stmtsp`. For every module that has a `name` and a `loc`, the tool may write
`++ module <name> file <realpath> lines <start> - <end>`. It writes that line when the file-id of `loc` (the text before the first comma) resolves to a non-empty realpath. The two line numbers come from the left-most match of `[a-z],(\d+):\d+,(\d+):\d+` in `loc`, or are `0 - 0` when nothing matches. After the module line, each statement of `type` `CELL` that has a `name` writes
`++ comp <inst> type <target> parent <module>`. Here `<target>` is the name of the module whose `addr` equals the statement's `modp`, or `UNKNOWN`. Before any of this, `main` decides which document is which: the one with a top-level `files` key is the metadata. When both or neither have it, the run stops.

The project is laid out as follows:

- `wrappers.dfy`: `Option`.
- `netlist.dfy`: the parsed documents, as datatypes with optional fields.
- `decimal.dfy`: `int()` of an ASCII digit run and `str()` of a natural number, proved to be inverse.
- `location.dfy`: `get_file_id`, plus `get_line_range`. The regular expression is modelled as a matcher at one position (`MatchAt`) and a left-most search (`FindFrom`). Both are proved against a declarative description of an occurrence (`OccursAt`).
- `indices.dfy`: `parse_filemap` and the address index `pointer_to_module_name`.
- `stems.dfy`: the output records, their text, and the pure specification of the whole output (`StemRecords`, `StemFile`). It also holds the method `Json2Stems`. That method keeps the source's nested loop with its `continue`, and is proved to write exactly `RenderAll(StemFile(meta, netlist))`.
- `classifier.dfy`: the classification branch of `main`, as a function.

A location `<fid>,<d1>:<d2>,<d3>:<d4>` with nothing after the last column, whose file-id does not end in a lower-case letter (as in `f1,1:1,5:1`), gets `lines 0 - 0`, because the pattern needs a lower-case letter directly before a comma. `Location.DigitEndedFileIdHasNoLines` proves this, and `Stems.TwoModuleExample` shows it in a full run. Text after the last column can still hold a match: `re.search` looks through the whole location. `Location.LetterFileIdExample` and `Stems.ModuleLineExample` prove the `10 - 20` outcome for `a,10:1,20:5`.

## Model

| member | source | states |
|---|---|---|
| Indices.ParseFileMap | json2stems.py:7-12 | The file index holds exactly the `files` entries that have a `realpath`, each mapped to that realpath. A document without `files` gives the empty map. |
| Indices.Get | json2stems.py:40 | `dict.get`: Some exactly when the key is present, and then the stored value. |
| Location.GetFileId | json2stems.py:14-15 | The file-id is a prefix of `loc` without any comma. It is either all of `loc` or is followed by a comma in `loc`. |
| Location.FileIdUnique | json2stems.py:14-15 | Only one string has those three properties, so they fully determine `split(',')[0]`. |
| Location.DigitRun | json2stems.py:18 | A greedy `\d+` takes every digit from its start up to the first non-digit or the end of the string. |
| Location.MatchAtSound | json2stems.py:18 | Whatever the matcher finds at position i is an occurrence of the pattern at i. Its two groups are that occurrence's first and third digit runs. |
| Location.MatchAtComplete | json2stems.py:18 | Every occurrence of the pattern at i is found by the matcher at i, with its first and third digit runs as groups. |
| Location.OccurrenceUnique | json2stems.py:18 | At one position the pattern can occur in only one way, apart from the length of the last column run. The captured groups are therefore determined. |
| Location.MatchAt | json2stems.py:18 | The pattern anchored at one position. Its contract is stated by Location.MatchAtGroups, Location.MatchAtSound and Location.MatchAtComplete. |
| Location.MatchAtGroups | json2stems.py:18-20 | What the matcher finds has two groups, and each is a run of digits. |
| Location.FindFrom | json2stems.py:18 | `re.search`: a found position is a match, and no position before it (from the start) matches. With no result, no position matches. |
| Location.GroupValues | json2stems.py:20 | `int(match.group(1)), int(match.group(2))`. Its contract is stated by Location.LineRangeOfFirstOccurrence, which gives the pair as the values of the first and third digit runs. |
| Location.GetLineRange | json2stems.py:17-21 | `get_line_range`. Its contract is stated by Location.LineRangeOfFirstOccurrence, Location.LineRangeWithoutOccurrence and Location.LocationFields. |
| Location.LineRangeOfFirstOccurrence | json2stems.py:17-20 | The line range is the numeric value of the first and third digit runs of the left-most occurrence. The column runs play no part. |
| Location.LineRangeWithoutOccurrence | json2stems.py:19-21 | When the pattern occurs nowhere, the line range is (0, 0). |
| Location.OccursNeedsLetterComma | json2stems.py:18 | Every occurrence starts with a lower-case letter directly followed by a comma. |
| Location.LocationOccurs | json2stems.py:18 | In `<fid>,<d1>:<d2>,<d3>:<d4>...` with `fid` ending in a lower-case letter, the pattern occurs at that letter, and its lines are int(d1) and int(d3). |
| Location.NoOccurrenceInFileId | json2stems.py:18 | No occurrence starts inside a comma-free prefix, except at its last character. |
| Location.LocationFields | json2stems.py:14-21 | For such a location, the file-id is `fid` and the line range is (int(d1), int(d3)), whatever the columns and the tail hold. |
| Location.DigitEndedFileIdHasNoLines | json2stems.py:14-21 | `<fid>,<d1>:<d2>,<d3>:<d4>`, with nothing after the last column and a comma-free `fid` not ending in a lower-case letter, has file-id `fid` and line range (0, 0). |
| Location.NoOccurrenceAfterFileId | json2stems.py:18 | When no character after a comma-free prefix that ends in a non-letter is a lower-case letter, the pattern occurs nowhere. |
| Location.FileF1HasNoLines | json2stems.py:14-21 | `f1,<l1>:1,<l2>:1` has file-id `f1` and line range (0, 0). |
| Location.LetterFileIdExample | json2stems.py:14-21 | `a,10:1,20:5` has file-id `a` and line range (10, 20). |
| Decimal.Value | json2stems.py:20 | `int()` of a digit run. Its contract is stated by Decimal.DecimalOfValue and by Decimal.NatToDecimal's read-back clause. |
| Decimal.NatToDecimal | json2stems.py:42 | The f-string's rendering of a line number is a canonical numeral that reads back as that number. |
| Decimal.DecimalOfValue | json2stems.py:20 | `int()` followed by `str()` gives back any canonical numeral, so the two are inverse. |
| Decimal.CanonicalUnique | json2stems.py:42 | Two canonical numerals of the same number are equal, so a printed line number is unambiguous. |
| Indices.AddressIndex | json2stems.py:25-29 | `pointer_to_module_name`. Its contract is stated by Indices.AddressIndexLastWins and Indices.AddressIndexUnbound. |
| Indices.AddressIndexLastWins | json2stems.py:25-29 | An address maps to the name of the last module in list order that has both that `addr` and a `name`. |
| Indices.AddressIndexUnbound | json2stems.py:25-29 | An address that no module with both fields carries is absent. Modules missing either field add nothing. |
| Stems.Target | json2stems.py:47 | `pointer_to_module_name.get(modp, "UNKNOWN")`, through Indices.Get. Its contract is stated by Stems.UnresolvedTargetLine for a missing or unresolved `modp`, and by Stems.TargetOfLastBinding for a resolved one. |
| Stems.TargetOfLastBinding | json2stems.py:25-47 | A `modp` equal to an address resolves to the name of the last module with that `addr` and a `name`. |
| Stems.Render | json2stems.py:42-48 | The two f-strings. Their text is stated by Stems.ModuleLineExample and Stems.UnresolvedTargetLine, and numbers are printed as Decimal.NatToDecimal states. |
| Stems.ModuleHeader | json2stems.py:40-42 | `filemap.get(file_id)`, then `if realpath:` and the module line. Its contract is stated by Stems.ModuleLineEmitted and Stems.ModuleRecordsWithFile. |
| Stems.CompRecords | json2stems.py:44-48 | The statement loop. Its contract is stated by Stems.CompRecordsOfNamedCells, Stems.CompRecordsMembers, Stems.CompRecordsAppend, Stems.CompRecordsLines and Stems.CompLinesIgnoreFileIndex. |
| Stems.ModuleRecords | json2stems.py:32-48 | One module's lines. Their contract is stated by Stems.SkippedModuleWritesNothing, Stems.ModuleLineEmitted, Stems.ModuleRecordsWithFile and Stems.CompLinesIgnoreFileIndex. |
| Stems.StemRecords | json2stems.py:31-48 | The lines of a module list, in list order. Their contract is stated by Stems.StemRecordsAppend and Stems.SkippedModuleWritesNothing. |
| Stems.StemFile | json2stems.py:23-48 | The whole output of `json2stems`, built from the two indices. It is what Stems.Json2Stems is proved to write, and Stems.TwoModuleExample computes it on a concrete design. |
| Stems.SkippedModuleWritesNothing | json2stems.py:31-33 | A module without `name` or without `loc` adds no line: the output is that of the modules before it followed by that of the modules after it. |
| Stems.ModuleLineEmitted | json2stems.py:35-42 | A module writes at most one module line. It writes one exactly when it has `name` and `loc` and its file-id maps to a non-empty realpath. That line carries the name, the realpath and the line range of `loc`. |
| Stems.ModuleRecordsWithFile | json2stems.py:35-48 | A module whose file resolves writes its module line first, then its comp lines. |
| Stems.ModuleLineExample | json2stems.py:35-42 | Module `M` at `a,10:1,20:5`, with file `a` at `/src/m.v`, writes exactly `++ module M file /src/m.v lines 10 - 20`. |
| Stems.CompRecordsMembers | json2stems.py:44-48 | Membership: a record is among a module's comp records exactly when some named CELL statement has that instance name, that resolved target and that parent. |
| Stems.NamedCells | json2stems.py:44-45 | The statements that pass the `type == "CELL"` and `name` test, in order. Each is a named CELL taken from the list. |
| Stems.CompRecordsOfNamedCells | json2stems.py:44-48 | One comp line per named CELL statement, duplicates included, in statement order. The k-th line carries the k-th named CELL's instance name, its resolved target and the parent's name. |
| Stems.CompRecordsLines | json2stems.py:44-48 | Statements produce only comp lines, never a module line. |
| Stems.CompLinesIgnoreFileIndex | json2stems.py:40-48 | A module's comp lines are its statements' comp records whatever the file index holds, that is, whether or not its module line was written. |
| Stems.UnresolvedTargetLine | json2stems.py:47-48 | Any named CELL whose `modp` is missing or unresolved is written as `++ comp <name> type UNKNOWN parent <parent>`. |
| Stems.StemRecordsAppend | json2stems.py:31 | The output for `a + b` is the output for `a` followed by that for `b`: modules are processed in list order, with no sorting or deduplication. |
| Stems.CompRecordsAppend | json2stems.py:44 | Comp lines follow statement order. |
| Stems.Json2Stems | json2stems.py:23-48 | The emitter loop writes exactly the rendered specification output. In module order, each module with `name` and `loc` writes its module line if the file resolves, then one comp line per named CELL in statement order. |
| Stems.TwoModuleExample | json2stems.py:23-48 | With metadata `f1 -> /a.v`, `top` (instantiating `sub` as `u_sub`) and `sub`, both in file `f1`, the output is the module line of `top` with lines 0 - 0, then `u_sub`'s comp line typed `sub`, then the module line of `sub` with lines 0 - 0. |
| Classifier.Classify | json2stems.py:63-70 | A classification exists exactly when one document has `files` and the other does not. It then puts the one with `files` first, as the metadata, and returns the same two documents. |
| Classifier.ClassifyOrderIndependent | json2stems.py:64-67 | Swapping the arguments gives the same classification. |
| Classifier.Run | json2stems.py:63-73 | Output is produced exactly when one document has `files` and the other does not. |
| Classifier.RunOrderIndependent | json2stems.py:64-73 | Swapping the two documents does not change the output. |
| Classifier.RunWritesStems | json2stems.py:64-73 | In either argument order, the output is the stem output of (metadata, netlist). |

## Left out

- `main`'s argument-count check, `open`, `json.load` with its error message, `print` and `sys.exit` (json2stems.py:50-61, 69-70, 72-76) are process and file I/O. A failed classification is `None`, and the output file is the sequence of strings that `out.write` receives, one element per call.
- JSON parsing itself is left out. The model takes parsed documents whose optional keys are `Option` fields, and `realpath`, `name`, `addr`, `loc`, `type` and `modp` are strings. Non-string JSON values are not modelled. Neither are keys other than the ones the code reads, nor a JSON `null` `addr` colliding with a missing `modp`.
- Decimal.Value and Location.GroupValues turn a digit run of any length into a number. On CPython 3.11 and later, `int()` (json2stems.py:20) raises ValueError for a string of more than 4300 digits, so a `loc` with such a line number makes `json2stems` fail. The model instead writes the number.
- Location.GetLineRange matches ASCII digits only. Python's `\d` and `int()` also accept other Unicode decimal digits.
- The `files` object and a module's object are maps, so duplicate JSON keys (which `json.load` resolves by keeping the last) do not arise.
- `tb/top_tb.py` and `tb/counter_tb.py` are simulator testbenches for SystemVerilog code that is not part of this model.
