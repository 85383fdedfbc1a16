# func-analyzer utilities in Dafny

A Dafny model of `src/func_analyzer/utils.py` from func-analyzer. That
module does two jobs for the function analyser:

- **Annotation cleaning.** It turns a type annotation into the short form
  shown to users. `typing.Optional[typing.Dict[str, typing.Any]]` becomes
  `Optional[Dict[str, Any]]`, and `<class 'str'>` becomes `str`.
  - The main path parses the text with `ast.parse` and walks the tree with
    `AnnotationCleaner`. That visitor keeps only the last segment of every
    dotted name.
  - Text that does not parse goes to seven `re.sub` rules.
  - The result can be wrapped in a colour tag `<fg=C>(...)</>`.
- **Docstring parameters.** It extracts parameter descriptions from a
  docstring.
  - First it asks the `docstring_parser` package.
  - When that package raises, three regular-expression passes run instead:
    `:param name:` lines (twice) and then a NumPy `Parameters` section.

The project has six modules:

| file | module | contents |
|---|---|---|
| `pytext.dfy` | `PyText` | Python text primitives: `\s` and the ASCII part of `\w`, `str.strip()`, `sep.join`, and `repr` of `str` and `int`. Each `repr` comes with a reader proved to be its inverse. |
| `annotation.dfy` | `Annotation` | The expression tree and `Render`, the text the visitor produces. `AnnotationCleaner` is a class with a `result` token list; each visitor method is proved to append exactly the tokens of its node, and the joined tokens are proved equal to `Render`. |
| `reader.dfy` | `CanonicalReader` | A reader for the small grammar `Render` emits. It is proved to invert `Render` on canonical trees, so rendering loses nothing but the qualifiers it drops. |
| `pattern.dfy` | `PatternCleaner` | The seven substitution rules. Each is modelled by what its regular expression matches at one position, and `re.sub` by the left-to-right scan. |
| `normalizer.dfy` | `Normalizer` | `clean_annotation_ast`, `format_annotation_with_color` and `clean_annotation_string`. |
| `docstring.dfy` | `Docstring` | `parse_docstring_params` and `_parse_docstring_manual`. The regular expressions are modelled as scanners, and the dictionary passes as loops over the matches. |

Where the code and its documentation disagree, the model follows the code:

- **`<class 'pkg.Widget'>` becomes `Widget`, not `pkg.Widget`.** The
  `module.Class` rule runs before the `<class '...'>` rules and removes the
  module first (`PatternCleaner.QualifiedClassCleaned`). Only a class name
  that does not start with a capital keeps its module
  (`PatternCleaner.LowercaseClassKept`).
- **A `:param` description is one line long.** The look-ahead
  `(?=\n\s*:|\n\s*\n|$)` runs under MULTILINE, so `$` already holds at every
  line break (`Docstring.ContinuationLineDropped`).
- **A NumPy section ends at any line that starts with a capital letter**,
  indentation included, because of the alternative `\n\s*[A-Z]`. A
  description such as `    The value.` therefore ends the section before
  it, and its parameter is not found (`Docstring.CapitalisedNumpyDescriptionLost`).
- **`<class 'typing.List'>` becomes `List`, not `typing.List`.** The comment
  on the last rule gives `typing.List` as its output, but the first rule has
  already deleted `typing.` by then, and the sixth rule unwraps
  `<class 'List'>` (`PatternCleaner.TypingListCleaned`,
  `PatternCleaner.TypingClassCleaned`).
- **Cleaning is not idempotent on every text.** `<class 'pkg.widget'>` does
  not parse and the patterns keep the module, giving `pkg.widget`; that text
  parses, and cleaning it again gives `widget`
  (`Normalizer.CleanNotIdempotent`).

## Model

| member | source | states |
|---|---|---|
| `Annotation.AnnotationCleaner.constructor` | src/func_analyzer/utils.py:24-25 | A new cleaner starts with an empty token list. |
| `Annotation.AnnotationCleaner.Visit` | src/func_analyzer/utils.py:21-62 | Visiting any node appends exactly that node's token sequence to `result` and changes nothing else. Each node kind is dispatched to its `visit_*` method or to `generic_visit`. |
| `Annotation.AnnotationCleaner.VisitName` | src/func_analyzer/utils.py:27-29 | A `Name` contributes its identifier unchanged. |
| `Annotation.AnnotationCleaner.VisitAttribute` | src/func_analyzer/utils.py:31-34 | An `Attribute` contributes only its last segment; the qualifier is never visited. |
| `Annotation.AnnotationCleaner.VisitSubscript` | src/func_analyzer/utils.py:36-51 | A subscript appends the base's tokens, then `[`, then its arguments, then `]`. A tuple slice puts `", "` between arguments; any other slice is visited whole. |
| `Annotation.AnnotationCleaner.VisitArgs` | src/func_analyzer/utils.py:41-46 | The loop over a tuple slice appends each element's tokens in order, with `", "` before every element but the first. |
| `Annotation.AnnotationCleaner.VisitConstant` | src/func_analyzer/utils.py:53-55 | A constant contributes its `repr`. |
| `Annotation.AnnotationCleaner.VisitBinOp` | src/func_analyzer/utils.py:57-62 | A binary operation appends left, then `" \| "` only for `BitOr`, then right. |
| `Annotation.AnnotationCleaner.GenericVisit` | src/func_analyzer/utils.py:21 | A node kind with no `visit_*` method contributes its children's tokens in order and nothing of its own. |
| `Annotation.Render` | src/func_analyzer/utils.py:21-62 | The text the visitor produces for a tree, one case per `visit_*` method and one for `generic_visit`. It has no contract of its own: `TokensRender` proves the class produces it, and the lemmas below state what it keeps and drops. |
| `Annotation.Repr` | src/func_analyzer/utils.py:53-55 | `repr` of a constant: `StrRepr`, `IntRepr`, `True`/`False`, `None`, `Ellipsis`, or the given text of an unmodelled constant. Its properties are those of `StrRepr` and `IntRepr`. |
| `Annotation.TokensRender` | src/func_analyzer/utils.py:72-76 | Joining the visitor's tokens gives `Render(tree)` for every tree. The class and the functional renderer agree. |
| `Annotation.DottedRendersLastSegment` | src/func_analyzer/utils.py:31-34 | A dotted name `a.b.c`, at any depth, renders as its last segment alone. |
| `Annotation.UnionChainRendersFlat` | src/func_analyzer/utils.py:57-62 | A chain `a \| b \| c` parses left-nested but renders flat: its members joined by `" \| "`. |
| `Annotation.RenderHasNoQualifier` | src/func_analyzer/utils.py:27-62 | The output contains no `.` when identifiers, last segments, string constants and the text of other constants hold none, however deeply the names are qualified. Every qualifier is dropped. |
| `CanonicalReader.ReadRenderedAnnotation` | src/func_analyzer/utils.py:27-62 | Reading the rendering of a canonical tree gives back that tree. Canonical means names, non-negative ints, strings, booleans, `None`, subscripts and `\|` chains. |
| `CanonicalReader.RenderInjective` | src/func_analyzer/utils.py:27-62 | Two different canonical trees never render to the same text. |
| `CanonicalReader.RenderUnqualify` | src/func_analyzer/utils.py:31-34 | Replacing every `Attribute` by its last segment leaves the rendering unchanged. |
| `CanonicalReader.ReadRenderedQualified` | src/func_analyzer/utils.py:27-62 | A qualified tree's rendering reads back as the tree with its qualifiers removed. |
| `PyText.Strip` | src/func_analyzer/utils.py:164 | `str.strip()` returns the input minus two all-blank margins, and the result starts and ends with non-blank characters. |
| `PyText.StripIdempotent` | src/func_analyzer/utils.py:164 | Stripping twice is the same as stripping once. |
| `PyText.QuoteFor` | src/func_analyzer/utils.py:55 | `repr` quotes with `"` exactly when the text holds a `'` and no `"`, and with `'` otherwise. |
| `PyText.StrRepr` | src/func_analyzer/utils.py:55 | `repr` of a string is at least two characters long and starts and ends with the quote `QuoteFor` chooses. |
| `PyText.StrReprNoDot` | src/func_analyzer/utils.py:55 | `repr` of a string without a dot has no dot: escapes add only backslashes, letters and hexadecimal digits. |
| `PyText.IntRepr` | src/func_analyzer/utils.py:55 | `repr` of an int is non-empty, starts with `-` exactly when the int is negative, and is decimal digits after that. |
| `PyText.StrReprRoundTrip` | src/func_analyzer/utils.py:55 | `repr` of a string constant is a quoted literal that reads back as exactly that string, with the rest of the text after it. |
| `PyText.NatReprRoundTrip` | src/func_analyzer/utils.py:55 | `repr` of a non-negative int is its decimal digits, which read back as that int. |
| `PatternCleaner.LiteralAt` | src/func_analyzer/utils.py:86-89 | A prefix rule matches at a position exactly when its literal occurs there, and the match is replaced by nothing. |
| `PatternCleaner.QualifiedClassAt` | src/func_analyzer/utils.py:90 | The `module.Class` rule matches at a position exactly when an identifier starts there whose word run stops at a dot followed by a capital letter. The match runs to the end of the word after the dot and is replaced by that word. |
| `PatternCleaner.ClassWordAt` | src/func_analyzer/utils.py:91 | `<class '(\w+)'>` matches at a position exactly when `<class '`, a non-empty word and `'>` follow there, and is replaced by the word. |
| `PatternCleaner.ClassDottedAt` | src/func_analyzer/utils.py:92 | `<class '(\w+\.\w+)'>` matches at a position exactly when `<class '`, a word, a dot, a word and `'>` follow there, and is replaced by the dotted name. |
| `PatternCleaner.MatchAt` | src/func_analyzer/utils.py:85-93 | Every rule's match is non-empty, lies inside the text, and is replaced by something shorter. |
| `PatternCleaner.SubFrom` | src/func_analyzer/utils.py:97 | A `re.sub` scan never lengthens the text. |
| `PatternCleaner.Sub` | src/func_analyzer/utils.py:97 | `re.sub` of one rule over the whole text, which it never lengthens. |
| `PatternCleaner.ApplyRules` | src/func_analyzer/utils.py:95-97 | The rules applied one after another, the first rule first; the result is never longer than the input. |
| `PatternCleaner.CleanAnnotationPattern` | src/func_analyzer/utils.py:82-99 | The loop applies the seven rules in list order, each to the previous rule's output, and never lengthens the text. |
| `PatternCleaner.SubUnchanged` | src/func_analyzer/utils.py:97 | A rule that matches nowhere leaves the text unchanged. |
| `PatternCleaner.PipelineSteps` | src/func_analyzer/utils.py:85-97 | The pipeline is the seven substitutions in the listed order. |
| `PatternCleaner.PlainTextUnchanged` | src/func_analyzer/utils.py:82-99 | Text with neither `.` nor `<`, such as `Union[str, int, float]`, is returned unchanged. |
| `PatternCleaner.EmptyUnchanged` | src/func_analyzer/utils.py:82-99 | The empty text is returned unchanged. |
| `PatternCleaner.BuiltinClassCleaned` | src/func_analyzer/utils.py:91 | `<class 'w'>` becomes `w` for every word `w`. |
| `PatternCleaner.QualifiedClassCleaned` | src/func_analyzer/utils.py:90-91 | `<class 'p.W'>`, with `W` capitalised, becomes `W`. `p` must not end in `typing`, `__main__` or `builtins`. |
| `PatternCleaner.LowercaseClassKept` | src/func_analyzer/utils.py:92 | `<class 'p.q'>`, with `q` not capitalised, becomes `p.q`. |
| `PatternCleaner.LiteralsPass` | src/func_analyzer/utils.py:86-89 | The four prefix deletions leave `<class 'p.q'>` alone unless `p` ends in the prefix's module name. |
| `PatternCleaner.ModulePrefixStep` | src/func_analyzer/utils.py:86-88 | The converse for a one-word module `m` such as `typing`, `__main__` or `builtins`: its rule turns `<class 'm.w'>` into `<class 'w'>`. |
| `PatternCleaner.TypingClassCleaned` | src/func_analyzer/utils.py:85-97 | `<class 'typing.w'>` becomes `w` for every word `w`, capitalised or not. |
| `PatternCleaner.TypingListCleaned` | src/func_analyzer/utils.py:92 | `<class 'typing.List'>`, the example in the last rule's comment, becomes `List`. |
| `Normalizer.CleanText` | src/func_analyzer/utils.py:65-79 | When the text does not parse, the cleaned result is no longer than the input. |
| `Normalizer.CleanAnnotationAst` | src/func_analyzer/utils.py:65-79 | A parsed text gives the joined tokens of a fresh `AnnotationCleaner`, which equal `Render` of the tree. An unparsable text gives the pattern cleaner's result. |
| `Normalizer.CleanedReadsBack` | src/func_analyzer/utils.py:65-76 | When the parsed tree is canonical once unqualified, the cleaned text reads back as that unqualified tree. |
| `Normalizer.CleanIdempotent` | src/func_analyzer/utils.py:65-76 | Cleaning a cleaned canonical annotation again changes nothing, assuming Python parses the cleaned text as the reader does. |
| `Normalizer.CleanNotIdempotent` | src/func_analyzer/utils.py:65-99 | For `p.q` with `q` not capitalised, and a `parse` that rejects `<class 'p.q'>` and reads `p.q` as an attribute: cleaning `<class 'p.q'>` gives `p.q`, and cleaning that again gives `q`, a different text. |
| `Normalizer.UnparsableClassText` | src/func_analyzer/utils.py:77-79 | `<class 'w'>`, which does not parse, falls back to the patterns and becomes `w`. |
| `Normalizer.TypingPrefixesDropped` | src/func_analyzer/utils.py:65-76 | `typing.Optional[typing.Dict[str, typing.Any]]` cleans to `Optional[Dict[str, Any]]`. |
| `Normalizer.FormatAnnotationWithColor` | src/func_analyzer/utils.py:102-104 | The result is `<fg=` + colour + `>(`, then the annotation, then `)</>`. Its length is the annotation's plus the colour's plus 10. The default colour is `cyan`. |
| `Normalizer.ColoredRoundTrip` | src/func_analyzer/utils.py:102-104 | Colour and annotation can be read back from the coloured text when the colour holds no `>`. |
| `Normalizer.ColoredInjective` | src/func_analyzer/utils.py:102-104 | With the same colour, different annotations give different coloured texts. |
| `Normalizer.CleanAnnotationString` | src/func_analyzer/utils.py:107-122 | A present, non-empty colour wraps the cleaned text; `None` or `""` returns it bare. |
| `Docstring.SphinxParamAt` | src/func_analyzer/utils.py:161-162 | A `:param` match starts with `:param` and has a non-empty word name. Its description is a suffix of the match ending at a line break or at the end, and contains no newline unless it is all blanks. |
| `Docstring.SphinxDescription` | src/func_analyzer/utils.py:161 | The lazy `(.+?)` with its look-ahead: a non-empty description that ends at a line break or at the end, lies within the text, and holds no line break unless it is all blanks. |
| `Docstring.SphinxMatches` | src/func_analyzer/utils.py:162 | Every `:param` match found by the scan has a word name, and its description stays within one line. |
| `Docstring.SectionStartAt` | src/func_analyzer/utils.py:176-177 | The NumPy section body starts after `Parameters\n`, at least one `-`, and a newline. |
| `Docstring.SectionEnd` | src/func_analyzer/utils.py:176 | The section ends at the first blank line, the first line starting with a capital after its indentation, or the end. |
| `Docstring.NumpySectionFrom` | src/func_analyzer/utils.py:176-178 | `re.search` of the section pattern: the body after the first heading that matches, up to `SectionEnd`. `EntrySection` and `NumpyEntryParsed` state what it finds. |
| `Docstring.NumpyDescEnd` | src/func_analyzer/utils.py:181 | The lazy description ends at the first stop after its first character: the next `name :` line, a final line break, or the end. |
| `Docstring.NumpyParamAt` | src/func_analyzer/utils.py:181 | A NumPy parameter match has a word name, a non-empty description, and ends inside the section. |
| `Docstring.NumpyParamAtShape` | src/func_analyzer/utils.py:181 | A match's name is the whole word at its start, and its description is a non-empty piece of the section that ends at a stop. |
| `Docstring.ConsumedNewline` | src/func_analyzer/utils.py:181 | The newline taken by `\s*[^\n]*\n` comes after the colon and leaves at least one character for the description. |
| `Docstring.NumpyParamMatches` | src/func_analyzer/utils.py:182 | Every NumPy parameter match has a word name and a non-empty description. |
| `Docstring.NumpyEntryFound` | src/func_analyzer/utils.py:181-182 | For an entry `name : type`, newline, indentation, description, newline, the scan finds exactly one match: that name with exactly that description line. |
| `Docstring.NumpyEntryParsed` | src/func_analyzer/utils.py:156-188 | A docstring made of `Parameters`, a dash line and one such entry has that entry as its section, and the manual parser maps the name to the stripped description. |
| `Docstring.EntrySection` | src/func_analyzer/utils.py:176-179 | The heading and such an entry form a section that is exactly the entry. |
| `Docstring.ParseDocstringManual` | src/func_analyzer/utils.py:156-188 | The three passes give `ManualParams`, whose contents `ManualParamsContents` states. |
| `Docstring.ManualParams` | src/func_analyzer/utils.py:156-188 | The result of `_parse_docstring_manual` as a function of the matches: a storing pass, then two fill-missing passes. `ManualParamsContents` states its contents. |
| `Docstring.Overwrite` | src/func_analyzer/utils.py:162-165 | The first pass as a function of its matches; `OverwriteKeys` and `OverwriteLastWins` state its contents. |
| `Docstring.FillGaps` | src/func_analyzer/utils.py:169-186 | A fill-missing pass as a function of its matches; `FillGapsKeeps`, `FillGapsKeys` and `FillGapsFirstWins` state its contents. |
| `Docstring.StoreEach` | src/func_analyzer/utils.py:162-165 | The first pass stores every match's stripped description in order. |
| `Docstring.StoreMissing` | src/func_analyzer/utils.py:169-173 | The second and third passes store a match only when its name is still missing. |
| `Docstring.OverwriteKeys` | src/func_analyzer/utils.py:162-165 | The first pass adds exactly the matched names. |
| `Docstring.OverwriteLastWins` | src/func_analyzer/utils.py:162-165 | In the first pass, the last match of a name decides its description. |
| `Docstring.FillGapsKeeps` | src/func_analyzer/utils.py:172-173 | A later pass never changes a name that is already present. |
| `Docstring.FillGapsKeys` | src/func_analyzer/utils.py:169-173 | A later pass adds exactly the matched names. |
| `Docstring.FillGapsFirstWins` | src/func_analyzer/utils.py:169-173 | A new name gets the description of its first match. |
| `Docstring.FillGapsPresent` | src/func_analyzer/utils.py:172-173 | A pass whose names are all present changes nothing. |
| `Docstring.SecondPassAddsNothing` | src/func_analyzer/utils.py:167-173 | The second `:param` pass runs the same pattern as the first and adds nothing. |
| `Docstring.PassesContents` | src/func_analyzer/utils.py:158-188 | After a first pass over one match list and a fill-missing pass over another, the keys are all names of both lists, each first-list name has its last description, and a name only in the second list has its first description. |
| `Docstring.ManualParamsContents` | src/func_analyzer/utils.py:156-188 | The manual result, name by name: its keys are the `:param` names plus the NumPy names, and a `:param` name takes its last line's description. A name only in the NumPy section takes its first entry's description. |
| `Docstring.ManualNamesAreWords` | src/func_analyzer/utils.py:161-186 | Every stored name is a non-empty word. |
| `Docstring.SphinxDescriptionsOneLine` | src/func_analyzer/utils.py:161-164 | No stored `:param` description contains a line break. |
| `Docstring.ContinuationLineDropped` | src/func_analyzer/utils.py:161 | For `:param name: desc\n` followed by anything, the description is exactly `desc`. |
| `Docstring.NoTagNoMatches` | src/func_analyzer/utils.py:161-162 | Text without a colon has no `:param` match. |
| `Docstring.SingleLineSectionHasNoParams` | src/func_analyzer/utils.py:181-182 | A NumPy section without a line break yields no parameters. |
| `Docstring.CapitalisedNumpyDescriptionLost` | src/func_analyzer/utils.py:176-186 | A section whose first description starts with a capital letter is cut to the `name : type` line, and no parameter is found. |
| `Docstring.DocstringParams` | src/func_analyzer/utils.py:136-137 | A missing or empty docstring gives an empty dictionary. |
| `Docstring.ParseDocstringParams` | src/func_analyzer/utils.py:125-153 | The loop over the structured parser's parameters gives `StructuredParams`; if the parser fails, the manual passes run; an empty docstring gives `{}`. |
| `Docstring.StructuredParams` | src/func_analyzer/utils.py:144-147 | The structured loop as a function of the parser's parameter list; `StructuredContents` states its contents. |
| `Docstring.StructuredContents` | src/func_analyzer/utils.py:145-147 | The structured path keeps exactly the parameters with a non-empty description, each name with the stripped description of its last such entry. |
| `Docstring.DescriptionsStripped` | src/func_analyzer/utils.py:147 | Whichever path produced it, every description returned is stripped. |

## Left out

- **`ast.parse` is not modelled.** It is the parameter `parse` of the
  `Normalizer` members, which gives the expression tree of a text or `None`
  where Python raises. The tree shape is that of Python 3.9 and later: a
  subscript's slice is the expression itself, with no `ast.Index` wrapper.
- **`str(field_annotation)` in `clean_annotation_string` is not modelled.**
  `Normalizer.CleanAnnotationString` takes the resulting text. Calling
  `__str__`/`__repr__` on an arbitrary object is outside the model.
- **Exceptions raised by `ast.parse` are not told apart.** `parse` giving
  `None` covers a `SyntaxError` or `ValueError`, which `clean_annotation_ast`
  catches, and also a `RecursionError` raised inside `ast.parse`, which only
  `clean_annotation_string` catches. Both fall back to the same pattern
  cleaner, so the model has one fallback.
- Normalizer.CleanAnnotationAst: exceptions raised after a successful parse
  are not modelled; the model always renders a parsed tree. The visitor can
  raise `RecursionError` on deep nesting, a long `|` chain included:
  `clean_annotation_ast` lets it propagate and `clean_annotation_string`
  then uses the patterns. `repr` of an int with more than 4300 digits raises
  `ValueError`, and then both functions use the patterns.
- Normalizer.CleanIdempotent: idempotence is proved only for texts that
  parse to a tree whose unqualified form is canonical. It does not hold for
  every text: `<class 'pkg.widget'>` cleans to `pkg.widget` and then to
  `widget` (`Normalizer.CleanNotIdempotent`).
- **The `docstring_parser` package is not modelled.** It is the parameter
  `structured` of `Docstring.ParseDocstringParams`: the parameter list it
  would report, or `None` where it raises.
- **`DocstringStyle` is accepted but has no effect**, as in the code.
- **The regular-expression engine is not modelled in general.** Each of
  the nine patterns is modelled by a function giving what it matches at one
  position, derived from its greedy and lazy quantifiers and its
  look-aheads.
- **`\w` is modelled as `[A-Za-z0-9_]`.** Python also counts non-ASCII
  letters and digits as word characters. `\s` and `str.strip()` use the
  full `str.isspace` set.
- **`repr` is modelled only for `str`, `int`, `bool`, `None` and `...`.**
  For `str`, characters are taken as printable when outside the Latin-1
  control ranges, so a non-Latin-1 character that Python escapes is
  written literally. `float`, `complex` and `bytes` constants carry their
  `repr` text as given (`OtherValue`).
- **Rendering of other node kinds.** Operators other than `|` are rendered
  with nothing between their operands, as the visitor does. Other node
  kinds are rendered as their children's text in order. The order of the
  children is the model's `Other` list.
