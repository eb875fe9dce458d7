# AUR/pacman update checker for Waybar, modelled in Dafny

This project models the `AURChecker` class of `src/aur_checker.py`, the core of
a Waybar widget that reports pending Arch Linux updates. The checker keeps three
lists of update records:

- `official_updates`: parsed from the output of `pacman -Qu`;
- `aur_updates`: parsed from the output of `yay -Qua`;
- `nvidia_updates`: one copy of every record whose package name matches one of
  nine NVIDIA driver patterns.

From these lists `waybar_output` builds a dictionary with four fields:

- `text`: an icon followed by the total;
- `alt`: `Updates: ` followed by the total;
- `tooltip`: a multi-line text;
- `class`: one of `nvidia-warning`, `has-updates` or `no-updates`.

Modules:

- `Text` (`text.dfy`): the Python string built-ins the checker uses.
  `str.strip()` is `Strip`, `str.split()` is `Tokens`, `str.split("\n")` is
  `SplitOn`, `"\n".join` is `Join` and `str(int)` is `Decimal`.
- `Lists` (`lists.dfy`): list comprehensions (`Map`, `Filter`) and the slice
  `s[:n]` (`Take`).
- `Nvidia` (`nvidia.dfy`): `_identify_nvidia_pkg`. The nine patterns are data,
  and `re.match` is modelled for anchored literal patterns. Python's `$` also
  matches just before a final newline.
- `Updates` (`updates.dfy`): the record dictionary `Rec` and the parsing of one
  line (`ParseLine`) and of a whole output (`Parse`). It also has the copies
  appended to `nvidia_updates` (`NvidiaCopies`) and the invariant `Consistent`
  that ties the three lists together.
- `Report` (`report.dfy`): the severity, icon and class choice, and the tooltip
  as a function of the three lists (`TooltipLines`, `Tooltip`, `Status`).
- `Checker` (`checker.dfy`): the class `AurChecker` with the three lists as
  `seq` fields. Its methods append to them in the loops the source has, and are
  proved equal to the functions above. The module-level `Append…` methods are
  the loops of `_format_tooltip` that append to `tooltip_lines`.

The subprocess output is a `string` parameter. A command that fails, or is not
installed, produces no output.

Behaviour of the code that the model keeps as written:

- The copy of a flagged AUR package that goes into `nvidia_updates` has type
  `"official"` (lines 67-75). Dictionaries compare by value, so no AUR record is
  ever found in `nvidia_updates`. As a result:
  - the `(NVIDIA)` marker of the AUR section (line 214) is never produced
    (`Report.AurSectionPlain`);
  - every AUR record, flagged or not, counts as "other"; when there are
    official updates, the official section shows the first 8 AUR records,
    under an "Other packages:" heading only when flagged official packages
    are listed above them (`Report.OfficialSectionShape`).
- The up-to-date branch inside the official section (line 198) can never be
  taken, because the header was appended just before it
  (`Report.OfficialPartNonEmpty`).
- The class name is `nvidia-warning`.
- Official packages other than NVIDIA ones are capped at 8 with no overflow
  line, and the NVIDIA block is not capped.
- The overflow line for AUR records inside the official section is spelled
  `" ...and{n-8} more"`, with no space after "and".
- The lists are not cleared between runs: `WaybarOutput` appends to whatever
  the checker already holds.

## Model

| member | source | states |
|---|---|---|
| Text.Strip | src/aur_checker.py:21-22 | `s.strip()`; its contract is stated by `Text.StripSpec` |
| Text.StripSpec | src/aur_checker.py:21-22 | `s.strip()` is the slice of `s` left between a whitespace prefix and a whitespace suffix; it is empty exactly when `s` is all whitespace, and otherwise starts and ends with a non-whitespace character |
| Text.TrimLeftSpec | src/aur_checker.py:21-22 | stripping the left end drops an all-whitespace prefix and leaves the rest, which is empty exactly for an all-whitespace string |
| Text.TrimRightSpec | src/aur_checker.py:21-22 | stripping the right end drops an all-whitespace suffix and leaves the rest, which is empty exactly for an all-whitespace string |
| Text.StripUnchanged | src/aur_checker.py:21 | a string that starts and ends with non-whitespace is unchanged by `strip()` |
| Text.SplitOn | src/aur_checker.py:21 | `s.split("\n")` always has at least one piece; `Text.SplitOnPieces`, `Text.SplitJoin` and `Text.JoinSplit` state the rest |
| Text.SplitOnPieces | src/aur_checker.py:21 | no piece of `split("\n")` contains a newline |
| Text.SplitJoin | src/aur_checker.py:21 | splitting at newlines the newline-join of newline-free pieces gives the pieces back |
| Text.JoinSplit | src/aur_checker.py:224 | joining the pieces of `split(sep)` with `sep` gives the original string back |
| Text.Join | src/aur_checker.py:224 | `"\n".join(lines)`; `Text.SplitJoin`, `Text.JoinSplit` and `Text.JoinEnds` state what it produces |
| Text.JoinEnds | src/aur_checker.py:224 | a join of non-empty lines starts with the first line's first character and ends with the last line's last character |
| Text.WordLengthSpec | src/aur_checker.py:23 | the leading run found by `split()` has no whitespace and stops at whitespace or at the end |
| Text.Tokens | src/aur_checker.py:23 | `line.split()`; `Text.TokensAreTokens`, `Text.TokensEmptyIffBlank`, `Text.TokensSkipSpace`, `Text.TokensCons` and `Text.TokensSingle` determine it on every string |
| Text.TokensAreTokens | src/aur_checker.py:23 | every piece `line.split()` returns is non-empty and has no whitespace |
| Text.TokensEmptyIffBlank | src/aur_checker.py:22-23 | `line.split()` is empty exactly when `line.strip()` is empty |
| Text.TokensSkipSpace | src/aur_checker.py:23 | whitespace before the first word is skipped by `split()` |
| Text.TokensCons | src/aur_checker.py:23 | a token followed by whitespace is the first element of `split()`, and the rest of the line gives the rest |
| Text.TokensSingle | src/aur_checker.py:23 | a lone whitespace-free word splits into just itself |
| Text.Decimal | src/aur_checker.py:142-143 | `str(n)` is a non-empty string of decimal digits, has no leading zero, and denotes `n` |
| Lists.Take | src/aur_checker.py:180 | `s[:n]` is the prefix of `s` of length `min(len(s), n)` |
| Lists.Map | src/aur_checker.py:170-173 | `[f(x) for x in s]` has one element per element of `s`, in order, each `f` of the matching element |
| Lists.Filter | src/aur_checker.py:165-167 | a comprehension with `if` keeps exactly the elements of the input that pass the test (order: `Lists.FilterAppend`) |
| Lists.FilterAppend | src/aur_checker.py:165-167 | filtering keeps input order: the kept elements of a concatenation are those of the first part followed by those of the second |
| Lists.FilterCongruent | src/aur_checker.py:186-188 | two tests that agree on every element filter the same |
| Lists.FilterAll | src/aur_checker.py:186-188 | a filter that every element passes returns its input |
| Nvidia.IsNvidia | src/aur_checker.py:83-96 | `_identify_nvidia_pkg`; its closed form is stated by `Nvidia.IsNvidiaIff` |
| Nvidia.AnyMatchesSome | src/aur_checker.py:96 | `any(...)` over the patterns holds exactly when some pattern in the list matches |
| Nvidia.PrefixOfPrefix | src/aur_checker.py:87-94 | a name matching a longer literal prefix also matches the shorter prefix it extends |
| Nvidia.IsNvidiaIff | src/aur_checker.py:83-96 | a name is flagged exactly when it is `nvidia` (or `nvidia` plus a final newline), or starts with `nvidia-`, `cuda`, `opencl-nvidia` or `lib32-nvidia-utils`; the other four patterns add nothing |
| Nvidia.IsNvidiaFlags | src/aur_checker.py:85-96 | `nvidia`, `nvidia-utils`, `cuda-tools`, `lib32-nvidia-utils` and `opencl-nvidia-470` are flagged |
| Nvidia.NotPrefixAt | src/aur_checker.py:87-94 | a literal is not a prefix of a name that differs from it at some position |
| Nvidia.NotFlaggedByFirstLetter | src/aur_checker.py:85-96 | a name whose first letter starts no pattern is not flagged |
| Nvidia.NotFlaggedUnlessLib32 | src/aur_checker.py:85-96 | a name starting with `l` is flagged only when it starts with `lib32-nvidia-utils` |
| Nvidia.IsNvidiaCaseSensitive | src/aur_checker.py:85-96 | matching is case-sensitive: `NVIDIA`, `Nvidia-utils` and `CUDA` are not flagged |
| Nvidia.IsNvidiaUnrelated | src/aur_checker.py:85-96 | `firefox` and `mesa` are not flagged |
| Nvidia.IsNvidiaAnchored | src/aur_checker.py:85-96 | matching is anchored at the start: no name starting with `libnvidia`, `lib32-cuda`, `python-cuda` or `egl-nvidia` is flagged |
| Nvidia.IsNvidiaRejectsNearMisses | src/aur_checker.py:86-91 | `nvidiax` is not flagged (the `$` of `^nvidia$`), nor is `lib32-nvidia` (shorter than `^lib32-nvidia-utils`) |
| Updates.WithKind | src/aur_checker.py:34-40 | the copy has the given type and the name, current and new version of the original |
| Updates.Lines | src/aur_checker.py:21 | `stdout.strip().split("\n")` has at least one line, even for empty output |
| Updates.ParseLine | src/aur_checker.py:22-32 | an accepted line gives a record of the parser's type |
| Updates.ParseLineIff | src/aur_checker.py:22-32 | a line is accepted exactly when `split()` gives at least four tokens with `->` third; the record takes tokens 0, 1 and 3 |
| Updates.ParseLineNameIsToken | src/aur_checker.py:23-27 | the name of a parsed record is one whitespace-free token |
| Updates.SpaceCons | src/aur_checker.py:23 | a token, a space and the rest of a line: the token is the first word |
| Updates.LastFieldTokens | src/aur_checker.py:23 | the new version followed by whitespace or by nothing is one word, followed by the words of the rest |
| Updates.LeadingFieldsTokens | src/aur_checker.py:23 | `name current -> rest` splits into `name`, `current`, `->` and the words of the rest |
| Updates.UpdateLineTokens | src/aur_checker.py:23 | `name current -> new` followed by whitespace and anything splits into those four tokens, then the words of the rest |
| Updates.ParseLineWellFormed | src/aur_checker.py:22-32 | a line `name current -> new`, optionally followed by whitespace and anything else, gives exactly the record `(name, current, new)` |
| Updates.ParsedNameFlaggedIff | src/aur_checker.py:23-41 | a parsed package is flagged exactly when its name is `nvidia` or starts with `nvidia-`, `cuda`, `opencl-nvidia` or `lib32-nvidia-utils`, since a parsed name never holds the newline `$` could match before |
| Updates.Parse | src/aur_checker.py:21-32 | the records parsed from an output: at most one per line, all of the parser's type |
| Updates.ParseAppend | src/aur_checker.py:21-32 | the records of two consecutive blocks of lines are those of the first followed by those of the second |
| Updates.Accepted | src/aur_checker.py:22-32 | one line contributes at most one record |
| Updates.ParsePrefix | src/aur_checker.py:21-32 | the first `i + 1` lines give the records of the first `i` lines followed by those of line `i` |
| Updates.ParseBlankOutput | src/aur_checker.py:21-22 | empty or all-whitespace output, which is also what a failed or missing command leaves, is the single blank line and gives no records |
| Updates.ParseBound | src/aur_checker.py:22 | there are never more records than non-blank lines |
| Updates.ParseAllAccepted | src/aur_checker.py:21-32 | output made only of accepted lines gives one record per line, in line order |
| Updates.ParseAcceptedLast | src/aur_checker.py:21-32 | an accepted last line contributes the last record |
| Updates.RenderLineShape | src/aur_checker.py:21-23 | a printed record holds no newline and starts and ends with non-whitespace |
| Updates.ParseRendered | src/aur_checker.py:21-32 | parsing inverts printing: the output that prints each record as `name current -> new` on its own line parses back to exactly those records, including the empty list from empty output |
| Updates.NvidiaCopies | src/aur_checker.py:33-41 | there are never more copies than records |
| Updates.NvidiaCopiesOne | src/aur_checker.py:33-41 | a single record has an `"official"` copy exactly when its name is flagged |
| Updates.NvidiaCopiesSnoc | src/aur_checker.py:67-75 | one more record adds its `"official"` copy exactly when its name is flagged |
| Updates.NvidiaCopiesFlagged | src/aur_checker.py:67-75 | every copy has type `"official"` and a flagged name |
| Updates.NvidiaCopiesAppend | src/aur_checker.py:33-41 | the copies of two blocks of records are those of the first followed by those of the second |
| Updates.NvidiaCopiesOfOfficial | src/aur_checker.py:33-41 | for official records the copies are exactly the flagged records, in order |
| Updates.NvidiaCopiesMembers | src/aur_checker.py:33-41 | every copy comes from a flagged record of the list, and every flagged record has its copy |
| Updates.ConsistentAddOfficial | src/aur_checker.py:21-41 | appending parsed official records and their copies keeps the three lists consistent |
| Updates.ConsistentAddAur | src/aur_checker.py:54-75 | appending parsed AUR records and their `"official"` copies keeps the three lists consistent |
| Updates.OfficialInNvidiaIff | src/aur_checker.py:165-167 | an official record is in `nvidia_updates` exactly when its name is flagged |
| Updates.AurNeverInNvidia | src/aur_checker.py:213 | no AUR record is ever in `nvidia_updates`, because the copies are typed `"official"` |
| Updates.NvidiaNonEmptyIff | src/aur_checker.py:131 | `nvidia_updates` is non-empty exactly when some official or AUR package is flagged |
| Report.TotalUpdates | src/aur_checker.py:104-106 | the total is the number of official and AUR records together, and zero exactly when both lists are empty |
| Report.Status | src/aur_checker.py:126-147 | the dictionary `waybar_output` returns; `Report.StatusText` and `Report.StatusClass` state its fields |
| Report.SelectSeverity | src/aur_checker.py:131-139 | `nvidia-warning` exactly when there are NVIDIA updates; otherwise `has-updates` exactly when the total is positive; otherwise `no-updates` |
| Report.StatusText | src/aur_checker.py:141-146 | `text` is the severity icon followed by the decimal digits of the total (at least one digit, no leading zero), `alt` is `Updates: ` followed by the same digits, and `tooltip` is the formatted tooltip |
| Report.StatusClass | src/aur_checker.py:131-145 | the class is `nvidia-warning` exactly when `nvidia_updates` is non-empty; otherwise `has-updates` exactly when there is an update; otherwise `no-updates` |
| Report.Repr | src/aur_checker.py:193 | `str(pkg)` of a record dictionary, used by ` • {pkg}`; see the `Report.Repr` line under "Left out" |
| Report.OfficialEntries | src/aur_checker.py:170-173 | one ` • name: current -> new` line per package, in order |
| Report.InlineAurEntries | src/aur_checker.py:192-193 | one ` • {pkg}` line per AUR record, in order |
| Report.AurEntries | src/aur_checker.py:212-216 | one line per AUR record, in order, marked when the record is in `nvidia_updates` |
| Report.OthersBlockSpec | src/aur_checker.py:176-183 | the first 8 other official packages, in order, with no overflow line |
| Report.InlineAurBlockSpec | src/aur_checker.py:186-195 | nothing without AUR records; otherwise an "Other packages:" heading exactly after NVIDIA entries, at most 8 entries, and an overflow line exactly when there are more than 8 |
| Report.InlineAurBlockEntries | src/aur_checker.py:192-193 | the entries of that block are the first 8 AUR records, in order |
| Report.AurBlockSpec | src/aur_checker.py:211-219 | the AUR heading, the first 8 AUR records in order, and an overflow line exactly when there are more than 8 |
| Report.OfficialPartExtends | src/aur_checker.py:160-206 | the official section only appends, and adds lines exactly when there are official updates |
| Report.AurPartExtends | src/aur_checker.py:208-219 | the AUR section only appends, and adds lines exactly when there are AUR updates |
| Report.TooltipLines | src/aur_checker.py:221-222 | the tooltip always has at least one line |
| Report.Tooltip | src/aur_checker.py:149-224 | `_format_tooltip`: the newline-join of `TooltipLines`; `Report.TooltipBannerFirst`, `Report.OfficialSectionShape`, `Report.AurSectionPlain`, `Report.TooltipUpToDate` and `Report.TooltipLineBound` state its layout |
| Report.TooltipBannerFirst | src/aur_checker.py:154-157 | with NVIDIA updates the tooltip opens with the banner, the advisory and a blank line |
| Report.TooltipNoBanner | src/aur_checker.py:154-222 | without NVIDIA updates the tooltip does not open with the banner |
| Report.TooltipUpToDate | src/aur_checker.py:221-224 | with no updates at all the tooltip is the single up-to-date line |
| Report.MembershipIsClassification | src/aur_checker.py:165-188 | in a consistent state the `in nvidia_updates` tests pick exactly the flagged official records, and every AUR record is "other" |
| Report.OfficialPartNonEmpty | src/aur_checker.py:197-206 | a non-empty official section never takes the up-to-date branch and always ends with a blank line and the total |
| Report.OfficialSectionShape | src/aur_checker.py:160-206 | the official section: header and count, every flagged official package uncapped, at most 8 other official packages, every AUR record as "other", then the blank line and the total |
| Report.AurSectionPlain | src/aur_checker.py:212-216 | in a consistent state the AUR section shows only plain bullets, never the `(NVIDIA)` marker |
| Report.TooltipLineBound | src/aur_checker.py:149-224 | the tooltip has at most 37 lines besides one per flagged official package |
| Checker.AurChecker.constructor | src/aur_checker.py:10-13 | a new checker has three empty lists, which are consistent |
| Checker.AurChecker.GetOfficialUpdates | src/aur_checker.py:15-41 | appends the records parsed from the `pacman -Qu` output to `official_updates` and their copies to `nvidia_updates`, leaves `aur_updates` alone, and keeps the three lists consistent |
| Checker.AurChecker.AddOfficialLines | src/aur_checker.py:21-41 | the loop over the output lines appends `Parse(lines)` to `official_updates` and its copies to `nvidia_updates`, keeping the lists consistent |
| Checker.AurChecker.AddOfficialLine | src/aur_checker.py:22-41 | one iteration: the accepted record, if any, is appended to `official_updates`, and its copy to `nvidia_updates` when flagged; the lists stay consistent |
| Checker.AurChecker.GetAurUpdates | src/aur_checker.py:48-75 | appends the records parsed from the `yay -Qua` output to `aur_updates` and their `"official"` copies to `nvidia_updates`, leaves `official_updates` alone, and keeps the three lists consistent |
| Checker.AurChecker.AddAurLines | src/aur_checker.py:54-75 | the loop over the output lines appends `Parse(lines)` to `aur_updates` and its copies to `nvidia_updates`, keeping the lists consistent |
| Checker.AurChecker.AddAurLine | src/aur_checker.py:55-75 | one iteration: the accepted record, if any, is appended to `aur_updates`, and its `"official"` copy to `nvidia_updates` when flagged; the lists stay consistent |
| Checker.AurChecker.GetAllUpdates | src/aur_checker.py:98-101 | official records first, then AUR records; the three lists stay consistent |
| Checker.AurChecker.GetTotalUpdates | src/aur_checker.py:104-106 | the total counts official and AUR records; the NVIDIA copies are not counted |
| Checker.AurChecker.FormatTooltip | src/aur_checker.py:149-224 | the lines appended one section at a time and joined with newlines equal `Tooltip` of the three lists |
| Checker.AurChecker.WaybarOutput | src/aur_checker.py:126-147 | after collecting the updates, the result is `Status` of the new lists, and the lists stay consistent |
| Checker.AppendOfficialSection | src/aur_checker.py:160-206 | the official section appended in place equals `OfficialPart` |
| Checker.AppendNvidiaBlock | src/aur_checker.py:168-173 | appends the NVIDIA heading and every flagged official entry |
| Checker.AppendOthersBlock | src/aur_checker.py:179-183 | appends the first 8 other official entries |
| Checker.AppendInlineAurBlock | src/aur_checker.py:189-195 | appends the "Other packages:" heading when NVIDIA entries precede, the first 8 AUR records, and the overflow line when there are more than 8 |
| Checker.AppendAurSection | src/aur_checker.py:208-219 | the AUR section appended in place equals `AurPart` |
| Checker.AppendOfficialEntries | src/aur_checker.py:170-173 | the loop appends one entry line per package, in order |
| Checker.AppendInlineAurEntries | src/aur_checker.py:192-193 | the loop appends one ` • {pkg}` line per record, in order |
| Checker.AppendAurEntries | src/aur_checker.py:212-216 | the loop appends one line per AUR record, with the marker exactly for records in `nvidia_updates` |
| Checker.FreshRunConsistent | src/aur_checker.py:126-128 | a new checker that parses both outputs holds consistent lists |
| Checker.FreshRunClass | src/aur_checker.py:126-139 | on a new checker the class is `nvidia-warning` exactly when a flagged package was parsed from either output, and `no-updates` exactly when neither output had an update line |

## Left out

- Running `pacman -Qu` and `yay -Qua` (lines 17-20 and 50-53), and the exception handlers (lines 43-46 and 76-80). Each output is a parameter that stands for the decoded `result.stdout`, and a command that fails or is missing produces no output. With `text=True` Python has already turned `"\r\n"` and a lone `"\r"` into `"\n"`, so the parameter is taken to hold no carriage return that would end a line. The error messages printed on other exceptions are not modelled.
- `print_updates` (lines 108-124): it only writes to the console.
- `main` and the JSON encoding (lines 227-229): `Waybar` carries the four fields, not their JSON text.
- The regular-expression engine: the nine patterns are anchored literals, some ending in `$`, and only that form is modelled.
- Non-ASCII whitespace: `strip()` and `split()` are modelled with the ASCII characters Python treats as whitespace (tab, newline, vertical tab, form feed, carriage return, the separators `\x1c`-`\x1f`, and space). Python also treats `\x85`, `\xa0`, U+1680, U+2000-U+200A, U+2028, U+2029, U+202F, U+205F and U+3000 as whitespace; the model treats them as ordinary characters.
- `Report.Repr`: the `str()` of a record copies the field values as they are. Python's `repr` of a string switches quote style or escapes a quote, escapes a backslash, and escapes every non-printable character (control characters such as `\x01`, `\x7f`, `\xad`, and other non-printable code points) as `\xNN`, `\uNNNN` or `\n`-style escapes; the parser accepts such characters inside a token, and the model does not escape them.
- Emoji and other fixed texts are string constants. Their rendering is not modelled.
