# Page extraction and text cleaning of the Task Extraction Service

This project is a Dafny model of `utils/extract.py`, the document front end of the
Task Extraction Service. It has two parts.

- `clean_text` normalises a page of text in six passes:
  1. CR-LF and lone CR become LF.
  2. Each run of two or more newlines becomes the sentinel `<PARA>`.
  3. Each remaining newline becomes a space.
  4. Each `<PARA>` becomes a blank line (`"\n\n"`).
  5. Each run of spaces becomes one space.
  6. Whitespace is stripped from both ends.
- `extract_pages_from_file` picks a document loader by the file's
  lower-cased extension (`.pdf`, `.txt`, `.docx` or `.doc`). Any other
  extension gives an "Unsupported file type" error. It then loads the
  documents and cleans the text of each one, in order.

Files, one module each:

- `strings.dfy` (`Strings`): Python's `str.isspace`, occurrence predicates,
  `Visible` (a string with its whitespace deleted), and `LastIndex`
  (`str.rfind`).
- `clean_text.dfy` (`Cleaning`): the six passes and `CleanText`.
- `clean_proofs.dfy` (`CleaningProofs`): facts about each pass. It also holds two
  reference definitions:
  - `UniversalNewlines`: line-ending translation in a single scan.
  - `ReflowLines`: what passes 2-4 mean on text without a sentinel. A newline
    run of length two or more becomes one blank line, and a lone newline
    becomes a space.
- `clean_properties.dfy` (`CleanTextProperties`): properties of the whole
  pipeline.
- `clean_examples.dfy` (`CleanTextExamples`): how a literal `<PARA>` in the
  input is treated. Each example is stated for any two visible characters
  other than `<`.
- `file_types.dfy` (`FileTypes`): `os.path.splitext`, lower-casing, and the
  loader dispatch. `LoaderFor` is the `if`/`elif` chain on a lower-cased
  extension, and `SelectLoader` applies it to a path's extension.
- `extract_pages.dfy` (`Extraction`): `extract_pages_from_file`. Loading is a
  parameter: a function from the chosen loader and the path to either an
  error or the loaded documents.

Pass 5 collapses only U+0020, as `r' +'` does. Tabs and other whitespace stay
where they are unless `strip()` removes them at the ends.

A raised exception is modelled as an `Err` result. `ValueError(f"Unsupported file type: {ext}")`
is `Err(Unsupported(ext))`, and a loader's failure passes through unchanged.

Cleaning is idempotent on text that contains no literal `<PARA>`
(`CleanTextIdempotent`), but not in general. The code treats a literal
`<PARA>` in a document as a paragraph break. When it directly follows a real
blank line, the first cleaning leaves two blank lines and a second cleaning
merges them into one (`MarkerBreaksIdempotence`, on `"a\n\n<PARA>b"`).
Idempotence therefore holds only under this condition.

## Model

| member | source | states |
|---|---|---|
| Strings.LastIndex | utils/extract.py:29 | `str.rfind` as `splitext` uses it: the index of the last occurrence of the character, or -1 when there is none. |
| Cleaning.ReplaceCrLf | utils/extract.py:18 | `replace('\r\n', '\n')` never lengthens the text and introduces no character that was not already there. It leaves text without CR unchanged. |
| Cleaning.ReplaceCr | utils/extract.py:18 | `replace('\r', '\n')` keeps the length and leaves no CR. Every character is kept, except that a CR becomes an LF. |
| CleaningProofs.LineEndingsAreUniversalNewlines | utils/extract.py:18 | The two replacements in a row equal universal-newline translation in one scan: each CR-LF pair, and each lone CR, becomes one LF. |
| CleaningProofs.ReplaceCrLfVisible | utils/extract.py:18 | `replace('\r\n', '\n')` changes only whitespace. |
| CleaningProofs.ReplaceCrVisible | utils/extract.py:18 | `replace('\r', '\n')` changes only whitespace. |
| CleaningProofs.ReplaceCrLfContains | utils/extract.py:18 | A block without LF in the translated text was already in the input, so no sentinel is created. |
| Cleaning.MarkParagraphs | utils/extract.py:19 | Every character of `re.sub(r'\n{2,}', '<PARA>', ...)`'s output comes from its input or from the sentinel. A leading newline is kept or starts a sentinel. |
| CleaningProofs.MarkLeavesSingleBreaks | utils/extract.py:19 | After marking paragraphs, no two adjacent newlines remain. |
| Cleaning.JoinLines | utils/extract.py:20 | `replace('\n', ' ')` keeps the length and leaves no newline. Every character is kept, except that a newline becomes a space. |
| CleaningProofs.JoinMarkStartsWith | utils/extract.py:19-20 | A block free of `<`, space and newline at the front of passes 2-3's output was at the front of their input. |
| Cleaning.RestoreParagraphs | utils/extract.py:21 | `replace('<PARA>', '\n\n')` adds no character other than newlines. |
| CleaningProofs.RestoreWithoutMarker | utils/extract.py:21 | Text without a sentinel is unchanged by the expansion. |
| CleaningProofs.RestorePairsNewlines | utils/extract.py:21 | Text without newlines comes out of the expansion with newlines only in `"\n\n"` pairs. |
| CleaningProofs.PassesAreReflow | utils/extract.py:19-21 | On text without a sentinel, passes 2-4 equal the reference `ReflowLines`. A run of at least two newlines becomes exactly one blank line, and a lone newline becomes a space. |
| CleaningProofs.PassesKeepVisible | utils/extract.py:19-21 | Passes 2-4 change only whitespace, except that a literal sentinel in the input is expanded. |
| CleaningProofs.ReflowNoTripleBreak | utils/extract.py:19-21 | The reflowed text never holds three newlines in a row. |
| CleaningProofs.ReflowContains | utils/extract.py:19-21 | A block without space or newline in the reflowed text was in its input. |
| CleaningProofs.ReflowFixesPairs | utils/extract.py:19-21 | Text whose newlines come only as single blank lines is left unchanged by reflowing. |
| CleaningProofs.RestoreAfterCrLfVisible | utils/extract.py:18-21 | Translating CR-LF does not change what the sentinel expansion leaves visible. |
| CleaningProofs.RestoreAfterCrVisible | utils/extract.py:18-21 | Translating lone CRs does not change what the sentinel expansion leaves visible. |
| Cleaning.CollapseSpaces | utils/extract.py:22 | `re.sub(r' +', ' ', ...)` leaves no two adjacent spaces and keeps the first character. Every character comes from its input. |
| CleaningProofs.CollapseIsRunReplacement | utils/extract.py:22 | Pass 5 equals the run-by-run reading of `re.sub(r' +', ' ', ...)`: each maximal run of U+0020 becomes one space, and every other character, tabs and newlines included, is copied unchanged. |
| CleaningProofs.CollapseWithoutDoubleSpace | utils/extract.py:22 | Text without a double space is unchanged by collapsing. |
| CleaningProofs.CollapseVisible | utils/extract.py:22 | Collapsing deletes only whitespace. |
| CleaningProofs.CollapseContains | utils/extract.py:22 | A block without spaces in the collapsed text was in its input. |
| CleaningProofs.CollapsePaired | utils/extract.py:22 | Collapsing spaces keeps every newline in a pair. |
| Strings.IsSpace | utils/extract.py:23 | The characters `strip()` with no argument removes: Python's `str.isspace` set (0x09-0x0D, 0x1C-0x20, NEL, NO-BREAK SPACE, the Unicode space separators, and the LINE SEPARATOR U+2028 and PARAGRAPH SEPARATOR U+2029). |
| Cleaning.LeadingSpaces | utils/extract.py:23 | The whitespace `strip()` removes in front is exactly the longest all-whitespace prefix: everything before the returned index is whitespace and the character at it is not. |
| Cleaning.TrailingStart | utils/extract.py:23 | The whitespace `strip()` removes at the end is exactly the longest all-whitespace suffix: everything from the returned index on is whitespace and the character before it is not. |
| Cleaning.Strip | utils/extract.py:23 | `strip()` leaves no whitespace at either end. It leaves text without whitespace at either end unchanged. |
| CleaningProofs.StripVisible | utils/extract.py:23 | Stripping deletes only whitespace. |
| CleaningProofs.StripContains | utils/extract.py:23 | Whatever the stripped text contains, the input contained. |
| CleaningProofs.StripPaired | utils/extract.py:23 | Stripping keeps every newline in a pair. |
| Cleaning.CleanText | utils/extract.py:16-23 | The six passes in the order of lines 18-23; the result has no whitespace at either end. Its other properties are the `CleanTextProperties` lemmas below (`CleanTextShape`, `CleanChangesOnlyWhitespace`, `CleanTextIsReflow`, `CleanTextIdempotent`). |
| CleanTextProperties.CleanHasNoCr | utils/extract.py:16-23 | No CR survives cleaning. |
| CleanTextProperties.CleanTextShape | utils/extract.py:16-23 | For every input, the cleaned text has no CR, no double space and no whitespace at either end. Its newlines come only in `"\n\n"` pairs, so none stands alone. |
| CleanTextProperties.CleanChangesOnlyWhitespace | utils/extract.py:16-23 | The output's visible text is the input's visible text with each literal `<PARA>` expanded. Without one, input and output have the same visible text. |
| CleanTextProperties.CleanTextIsReflow | utils/extract.py:16-23 | Without a literal sentinel, cleaning is universal newlines, then `ReflowLines`, then collapsing, then stripping. |
| CleanTextProperties.CleanBreaksAreBlankLines | utils/extract.py:16-23 | Without a literal sentinel, every newline run of the output is exactly one blank line (newlines come in pairs and never three in a row), and no sentinel is left. |
| CleanTextProperties.CleanFixesNormalised | utils/extract.py:16-23 | Text that is `Normalised` is left unchanged: tidy (no CR, no double space, no whitespace at either end, newlines only in pairs), with no three newlines in a row and no sentinel. |
| CleanTextProperties.CleanTextIsNormalised | utils/extract.py:16-23 | Without a literal sentinel in the input, the output is `Normalised`: tidy, with no three newlines in a row and no sentinel. |
| CleanTextProperties.CleanTextIdempotent | utils/extract.py:16-23 | Without a literal sentinel, cleaning twice gives the same as cleaning once. |
| CleanTextExamples.BlankLineIsClean | utils/extract.py:16-23 | `"a\n\nb"` is already clean. |
| CleanTextExamples.LiteralMarkerIsABreak | utils/extract.py:19-21 | A literal `"a<PARA>b"` is cleaned to `"a\n\nb"`. |
| CleanTextExamples.MarkerAfterBreakDoubles | utils/extract.py:16-23 | `"a\n\n<PARA>b"` is cleaned to `"a\n\n\n\nb"`. |
| CleanTextExamples.DoubleBreakHalves | utils/extract.py:16-23 | `"a\n\n\n\nb"` is cleaned to `"a\n\nb"`. |
| CleanTextExamples.MarkerBreaksIdempotence | utils/extract.py:16-23 | Cleaning `"a\n\n<PARA>b"` twice differs from cleaning it once. |
| FileTypes.ExtensionStart | utils/extract.py:29 | The extension starts at a dot after which there is no dot and no `/`, or it is empty. |
| FileTypes.SplitExt | utils/extract.py:29 | Root and extension concatenate back to the path. The extension is empty, or is one dot followed by neither dots nor `/`. |
| FileTypes.SplitExtFindsExtension | utils/extract.py:29 | The extension is non-empty exactly when some dot in the last path component follows a character that is not a dot. |
| FileTypes.SplitExtOfName | utils/extract.py:29 | A stem plus a one-dot extension splits back into that stem and that extension, unless the stem's last component is all dots. |
| FileTypes.DotFileIsRefused | utils/extract.py:29-38 | The dot file `.pdf` has no extension, so it is refused with an empty extension in the message. |
| FileTypes.Lower | utils/extract.py:29 | `lower()` works character by character and keeps the length. |
| FileTypes.Extension | utils/extract.py:29 | The compared extension is empty or has the one-dot shape. |
| FileTypes.LoaderFor | utils/extract.py:31-38 | A loader is chosen exactly for the four supported extensions. `.pdf` selects the PDF loader, `.txt` the text loader, and `.docx` and `.doc` both select the Word loader. Any other extension gives the "Unsupported file type: " error carrying that extension. |
| FileTypes.SelectLoader | utils/extract.py:29-38 | The path is accepted exactly when its lower-cased extension is one of the four supported ones; otherwise the error carries that lower-cased extension. Case-insensitivity and the accepted names are `SelectLoaderIgnoresCase` and `SupportedNames`. |
| FileTypes.SelectLoaderIgnoresCase | utils/extract.py:29-38 | Paths that differ only in letter case get the same extension and the same loader or error. |
| FileTypes.SupportedShape | utils/extract.py:31-36 | Any case spelling of a supported extension is one dot followed by neither dots nor `/`, and every character after the dot lower-cases to a letter `a`-`z`. |
| FileTypes.SupportedNames | utils/extract.py:29-38 | A name made of a stem whose last path component is not all dots (so not a dot file) followed by any case spelling of a supported extension is accepted. The `.doc` and `.docx` spellings get the Word loader. |
| Extraction.CleanPages | utils/extract.py:42 | One page per document, in order, each page being that document's cleaned text. |
| Extraction.CleanPagesAppend | utils/extract.py:42 | Cleaning a list of documents commutes with concatenating lists. |
| Extraction.ExtractPages | utils/extract.py:25-44 | An unsupported extension fails with its error before loading. A loading error passes through. Otherwise the result is `CleanPages` of the loaded documents: page i is `clean_text` of document i's content. |
| Extraction.ExtractedPagesAreClean | utils/extract.py:25-44 | On success the extension was supported and loading succeeded. There is one page per loaded document, and every page is tidy: no CR, no double space, no whitespace at either end, newlines only in pairs. |
| Extraction.CleanPagesAreTidy | utils/extract.py:42 | Every page has no CR, no double space, no whitespace at either end and only paired newlines. |
| Extraction.CleanPagesAreStable | utils/extract.py:42 | Pages from documents without a literal `<PARA>` do not change when cleaned again. |

## Left out

- The loaders (`PyPDFLoader`, `TextLoader`, `UnstructuredWordDocumentLoader`, lines 32-40) read and parse files. Here they are the `load` parameter of `ExtractPages`, so file I/O, PDF and Word parsing, and UTF-8 decoding are not modelled.
- Document metadata (line 41) is carried in `Document` but not used, as in the source.
- The duplicate imports (lines 1-14) have no behaviour.
- `main.py` (`analyze_milestones`, which joins the pages and sends them to a language model, and a command-line demo), `utils/llm_selector.py` and `models/milestone_models.py` are not part of this model.
- FileTypes.Lower: lower-cases only the ASCII letters `A`-`Z`. Python's `str.lower` also maps other Unicode letters, and some of them to several characters. Only U+0130 (to `i̇`) and KELVIN SIGN U+212A (to `k`) lower-case to something containing ASCII, and neither `i` nor `k` occurs in `.pdf`, `.txt`, `.docx` or `.doc`, so acceptance and the chosen loader are the same for every path. Only the text of the "Unsupported file type" message differs when the extension holds a non-ASCII capital.
- FileTypes.SplitExt: follows POSIX `os.path.splitext`, with `/` as the only separator. The Windows variant also splits at `\` and after a drive letter.
- Lone surrogates: Dafny's `char` is a Unicode scalar value, so a Python `str` holding a lone surrogate (U+D800-U+DFFF) cannot be given to `CleanText`; `clean_text` would copy such a character through unchanged.
