# click-extra: version option, table formats and documentation splicing

A Dafny model of three small parts of click-extra, a set of extensions to the
Click command-line framework for Python:

- **The `--version` option** (`click_extra/version.py`). It splits a message
  template on the four fields `%(version)s`, `%(package_name)s`, `%(prog_name)s`
  and `%(env_info)s`. It wraps each field in its own style and every other
  non-empty fragment in the message style, then substitutes the four values.
  Constructor arguments override auto-detection. The package name is derived
  from the `__name__` or `__package__` of the frame that first reads it. The callback records
  the version metadata on the context and, for a set flag outside resilient
  parsing, prints the message and exits.
- **The `--table-format` option** (`click_extra/tabulate.py`). This covers the
  sorted list of output formats and the parsing of `csv` / `csv-<dialect>`
  identifiers. It also covers the callback that stores the chosen format and
  installs a CSV, vertical or tabulate renderer, the vertical layout (a banner
  per row, then `label | value` lines), and the defaults passed to the tabulate
  library.
- **Tag-delimited replacement** (`click_extra/docs_update.py`). The new text
  goes between the first start tag and the first end tag after it.

Files:

| file | module | contents |
|---|---|---|
| `wrappers.dfy` | `Wrappers` | `Option` and `Result` |
| `strings.dfy` | `Strings` | the Python string operations used: `find`, `split(sep, 1)`, `partition`, `"".join`, `ljust`, `str(n)` |
| `sorting.dfy` | `Sorting` | Python's code-point ordering of strings and `sorted` |
| `cli.dfy` | `Cli` | the slice of a Click context the callbacks touch, callback, renderer and parameter-type identities, and keyword arguments with defaults |
| `version.dfy` | `Version` | the `--version` option |
| `tabulate.dfy` | `Tabulate` | the `--table-format` option and the renderers' pure parts |
| `docs_update.dfy` | `DocsUpdate` | the tag splice |

The split on the four fields (`re.split` with a capturing alternation) is
modelled by `Version.SplitFields`. It scans left to right and tries the fields
in the order of the pattern. The result is proved to alternate between
field-free literal fragments and fields, and to join back to the template.
Python's `%` formatting is modelled only for the four named fields.

Effects are modelled as state:

- The context is a class whose fields are the metadata dictionary, the
  installed table renderer, the echoed lines and an exit flag.
- Echoed output is a sequence of lines.
- Exceptions are `Failure` results, or an `Option` returned by a callback.
- A failed `assert` in the source becomes an error value.

The docstring of `click_extra/version.py` (line 45) names the metadata key
`click_extra.package`. The code writes `click_extra.package_name` (line 266).
The model follows the code.

## Model

| member | source | states |
|---|---|---|
| Strings.SplitOnce | click_extra/tabulate.py:79 | `split(sep, 1)`: one part (the whole string) exactly when `sep` is absent; otherwise two parts around the first occurrence |
| Strings.Before | click_extra/version.py:172 | `partition(".")[0]`: a prefix of the input with no separator in it; the whole input when the separator is absent, and otherwise exactly the text before the first occurrence |
| Strings.PadRight | click_extra/tabulate.py:103 | `ljust`: the length is the larger of the width and the input's length, the input is a prefix, and the rest is spaces |
| Strings.NatToStringRoundTrip | click_extra/tabulate.py:108 | the decimal text of a row number reads back as that number |
| Sorting.StrLeTotal | click_extra/tabulate.py:63 | any two strings are comparable under Python's string order |
| Sorting.StrLeTransitive | click_extra/tabulate.py:63 | Python's string order is transitive |
| Sorting.Sort | click_extra/tabulate.py:63-70 | `sorted`: the result is ordered and a permutation of the input |
| Sorting.SortedPermutationUnique | click_extra/tabulate.py:63-70 | two ordered permutations of one list are equal (by antisymmetry of the string order) |
| Sorting.SortIsTheSortedPermutation | click_extra/tabulate.py:63-70 | any ordered permutation of the input is the result of `sorted`, so the two properties above fix it |
| Version.SplitFieldsJoin | click_extra/version.py:220-230 | the fragments of the field split join back to the template |
| Version.SplitFieldsAlternates | click_extra/version.py:220-230 | the split alternates field-free literal fragments (even positions) with fields (odd positions), starting and ending on a literal |
| Version.NoFieldSplitsToItself | click_extra/version.py:220-230 | a template with no field splits into itself alone |
| Version.DefaultMessageSplit | click_extra/version.py:205 | the default message splits into an empty fragment, the program-name field, `, version `, the version field and an empty fragment |
| Version.UnstyledTemplateUnchanged | click_extra/version.py:208-239 | with none of the five styles set, the styled template equals the template |
| Version.FieldsTakeOwnStyle | click_extra/version.py:214-237 | every field fragment gets the style mapped to that field, never the message style; every other non-empty fragment gets the message style (or none); empty fragments add nothing |
| Version.ColoredDefaultMessage | click_extra/version.py:205-239 | the default message styles as program-name style, message style on `, version `, and version style |
| Version.VersionOption.ColoredTemplate | click_extra/version.py:208-239 | the loop builds the styled form of the given template, or of the option's message when none is given |
| Version.RenderChangesOnlyFields | click_extra/version.py:248-253 | substitution replaces only field occurrences: binding each field to its own text gives back the template |
| Version.RenderWithoutFields | click_extra/version.py:248-253 | a template without fields renders as itself whatever the values |
| Version.RenderDefaultMessage | click_extra/version.py:248-253 | the default message renders as `<prog_name>, version <version>` |
| Version.DefaultVersionString | click_extra/version.py:241-253 | with no styles and the stock message, the option prints `<prog_name>, version <version>` |
| Version.DerivePackageName | click_extra/version.py:165-174 | no frame gives no name; `__package__` is used under `__main__`, otherwise `__name__`; the result is a prefix of that source, has no dot, equals the source when it has no dot, and otherwise ends right before the source's first dot |
| Version.SubmoduleGivesTopPackage | click_extra/version.py:165-174 | a frame in module `pkg.sub`, with `pkg` free of dots, gives `pkg`; the frame that first reads the package name is in `click_extra.version`, so auto-detection gives `click_extra` |
| Version.LookupVersion | click_extra/version.py:176-194 | the version is found exactly when a non-empty package name is installed with a non-empty version, and it is the installed one; otherwise the error says whether no name (or an empty one) was given, the package is not installed, or its version is empty |
| Version.VersionOption.constructor | click_extra/version.py:65-135 | decls default to `--version`; a truthy version, package name, program name, environment info or message overrides auto-detection for every environment, and a missing or empty one leaves the resolved value to auto-detection; the styles are kept; `is_flag`, `expose_value`, `is_eager` and `help` take the caller's values or `True`, `False`, `True` and the stock help text; the callback is print-and-exit unless the caller passes one, and an explicit `None` is kept |
| Version.VersionOption.ResolvedPackageName | click_extra/version.py:137-174 | the given package name, otherwise the one derived from the globals of the frame that first reads it |
| Version.VersionOption.ResolvedVersion | click_extra/version.py:176-194 | the given version, otherwise the installed package's; it fails exactly when none was given and the lookup fails |
| Version.VersionOption.ResolvedProgName | click_extra/version.py:196-199 | the given program name, otherwise the root command's name |
| Version.VersionOption.ResolvedEnvInfo | click_extra/version.py:201-203 | the given environment info, otherwise the scrubbed profile |
| Version.VersionOption.RenderMessage | click_extra/version.py:241-253 | a given template is rendered as it is; without one, the styled form of the option's message (`Colored`, which the style lemmas describe) is rendered, and that is the plain message when no style is set |
| Version.VersionOption.PrintAndExit | click_extra/version.py:255-281 | records the package name, then the version (stopping with the lookup error if it fails), program name and environment info; echoes the rendered message and exits exactly when the flag is set and parsing is not resilient |
| Tabulate.CsvFormats | click_extra/tabulate.py:69 | one `csv-<dialect>` name per dialect, in order |
| Tabulate.OutputFormats | click_extra/tabulate.py:63-70 | the format list is sorted and a permutation of the tabulate formats, `csv`, `vertical` and the dialect formats |
| Tabulate.OutputFormatsListsEveryFormat | click_extra/tabulate.py:63-70 | the list contains `csv`, `vertical`, every tabulate format and `csv-<d>` for every dialect `d` |
| Tabulate.OutputFormatsListsNothingElse | click_extra/tabulate.py:63-70 | every listed format is a tabulate format, `csv`, `vertical` or a dialect format |
| Tabulate.CsvIdSplit | click_extra/tabulate.py:79-80 | for an identifier starting with `csv`, the text before the first dash is exactly `csv` iff the identifier is `csv` or starts with `csv-` |
| Tabulate.GetCsvDialect | click_extra/tabulate.py:74-83 | succeeds iff the identifier is `csv` or starts with `csv-`; `csv` gives `excel`; `csv-<d>` gives `d`, dashes in `d` included |
| Tabulate.SelectRenderer | click_extra/tabulate.py:142-148 | a `csv` prefix is checked first and gives the CSV renderer with the parsed dialect (or fails); exactly `vertical` gives the vertical renderer; any other name gives tabulate with that name |
| Tabulate.EveryOutputFormatHasRenderer | click_extra/tabulate.py:63-70 | when no tabulate format starts with `csv`, every listed format gets a renderer, and `csv-<d>` gets the CSV writer with dialect `d` |
| Tabulate.InitFormatter | click_extra/tabulate.py:131-150 | the raw value, even `None`, is stored under `click_extra.table_format` before dispatching; a `None` value then fails; otherwise the chosen renderer is installed exactly when dispatch succeeds, and nothing is installed on failure |
| Tabulate.MaxLen | click_extra/tabulate.py:102 | the header width is at least every header's length and equal to one of them |
| Tabulate.Padded | click_extra/tabulate.py:102-103 | all padded headers have the common width, keep the header as a prefix, and are padded with spaces |
| Tabulate.CellLines | click_extra/tabulate.py:109-110 | one `label \| value` line per cell, as many as the shorter of labels and row |
| Tabulate.BannerNumbersRow | click_extra/tabulate.py:108 | a banner is 27 stars, `[ `, the 1-based row number in decimal, `. row ]`, 27 stars |
| Tabulate.RowBlockInOutput | click_extra/tabulate.py:105-110 | the block of row `i` (its banner, then its cell lines) occupies the output right after the blocks of the earlier rows |
| Tabulate.AppendCellLines | click_extra/tabulate.py:109-110 | the inner loop appends exactly the cell lines of the row to what was emitted before |
| Tabulate.RenderVertical | click_extra/tabulate.py:96-110 | fails exactly when there are no headers; otherwise the loops emit the vertical layout of every row with the padded headers |
| Tabulate.RenderTable | click_extra/tabulate.py:113-120 | the call gets the caller's keywords plus `disable_numparse=True` and `numalign=None`, and the caller's values win |
| Tabulate.TableFormatOption.constructor | click_extra/tabulate.py:152-173 | decls default to `-t`/`--table-format`; unless the caller passes them, the type is a case-insensitive choice among the output formats, the default is `rounded_outline`, the value is not exposed and the help is the stock text; the callback is the formatter initialiser unless the caller passes one, and an explicit `None` is kept |
| DocsUpdate.ReplaceContent | click_extra/docs_update.py:58-72 | an empty start tag is rejected; an absent start tag is reported as such; success needs both tags and yields at least the tags and new content |
| DocsUpdate.ReplaceContentSplice | click_extra/docs_update.py:58-71 | with the first start tag at `i` and the first end tag after it, the result is the text before, the start tag, the new content, the end tag and the text after; the old enclosed text is dropped |
| DocsUpdate.ReplaceContentNeedsEndTag | click_extra/docs_update.py:59 | after the start tag, an empty end tag or one that does not occur makes the splice fail |
| DocsUpdate.SpliceOfSpliced | click_extra/docs_update.py:58-71 | a document already holding the new content between its tags splices to itself |
| DocsUpdate.ReplaceContentIdempotent | click_extra/docs_update.py:58-71 | splicing the same content twice gives the result of splicing it once, when the end tag occurs in `new_content + end_tag` only at its end |

## Left out

- Stack-frame introspection in the package-name property (click_extra/version.py:145-163). It steps back from the getter, past the `cached_property` frame, to the frame that first reads `package_name`. That frame's `__name__` and `__package__` are an input (`Version.FrameGlobals`), and "no frame found" is `None`. In the callback that frame is in `click_extra/version.py` itself, whose module is `click_extra.version`, so the auto-detected name there is `click_extra` whatever module declared the option (`Version.SubmoduleGivesTopPackage`).
- `importlib.metadata` is a map from distribution name to version string. With no package name or an empty one, the source calls `metadata.version` with `None` or `""`, and that call fails with an error that is not the `is not installed` error of click_extra/version.py:180-185. The model reduces that case to its own error, `NoPackageName`. The error messages are not modelled.
- `get_current_context().find_root().info_name` and `get_profile(scrub=True)` are inputs (`Version.Environment`): the first reads the running Click context, the second the host system.
- `cached_property` caching: each resolved value is recomputed from the same inputs, which gives the same result.
- Style objects and themes: a style is an arbitrary `string -> string` function.
- Version.VersionOption.constructor: the default styles of the five style arguments (green, the theme's invoked-command style, bright black, none) are not modelled, so the caller passes every style explicitly. Keyword arguments forwarded to Click other than `callback` are not modelled, and `help` is the untranslated text.
- Tabulate.TableFormatOption.constructor: the `default` argument is modelled as a format name or `None`, not as an arbitrary value. Keyword arguments forwarded to Click other than `callback` are not modelled, and `help` is the untranslated text.
- Version.Render: models `%` formatting only for the four named fields. Other `%` directives, a literal `%` (which Python rejects) and width or precision flags are not modelled.
- Version.VersionOption.RenderMessage: the `color` flag passed to `echo` with the message is not modelled, nor is the stripping of styles on terminals without colour.
- `ctx.close()` and `ctx.exit()`: the model sets an exit flag on the context, and the callbacks registered by the close are not modelled.
- Click's `Choice` validation, and its case-insensitive matching in the table-format option: parameter parsing belongs to Click.
- The tabulate library's rendering, `MIN_PADDING`, and its format registry, including the `github` format override (click_extra/tabulate.py:32-49, 120). The registry's names are an input to `Tabulate.OutputFormats`.
- `csv.writer` output in `render_csv` (click_extra/tabulate.py:86-93). The CSV renderer is identified only by its dialect. The list of registered dialects is an input.
- Tabulate.RenderVertical: only the echoed lines are modelled, not `echo`'s terminal handling. Cells are strings: `str()` of other cell values is not modelled.
- File resolution, existence checks, reading and writing in `replace_content` (click_extra/docs_update.py:51-55, 62): the splice works on the file's text, and a failure stands for the exception raised before anything is written.
- The lexer table, the graphviz platform diagrams and `update_docs` (click_extra/docs_update.py:75-214): they format data from pygments, graphviz and the platform registry. click_extra/platforms.py and click_extra/pygments.py are not part of this model.
- Configuration loading, parameter provenance and colouring helpers: click_extra/config.py, click_extra/parameters.py and click_extra/colorize.py are not part of this model.
