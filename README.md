# Apple SEC filings: section scanner and word counts

A Dafny model of the text pipeline in the two scripts `Apple-SEC-filings-py2.py`
(Python 2) and `Apple-SEC-filings.py` (Python 3). Both scripts read each filing as lines
and look for the "Item 1A. Risk Factors" section. They count the words of that section
into a dictionary `d` and write the dictionary to one worksheet per filing, ranked by
count.

The per-document loop is the same in both scripts. It is modelled once, in `Scanner`,
and is generic over a `Rules` value. That value holds each script's own line tests and
word handling:

- how blank lines are detected;
- how a line is prepared before matching;
- the heading, page-number and end-marker patterns;
- how a content line is split into words;
- what is done to each word (the Python 2 lemmatizer, or nothing);
- the acceptance test.

`Scripts.RulesOf` binds the concrete rules of each script, taken from `Py2Rules` and
`Py3Rules`.

The layers, from the bottom up:

- `Text`: the Python string primitives used. These are `str.isspace`, `str.strip()`,
  `str.split()`, ASCII `lower()` and character filtering.
- `Patterns`: the anchored regular expressions `A\s*B$` and `^A\s*B` as computable
  predicates. Each is proved equivalent to a declarative reading of the regular
  expression.
- `Py2Rules`, `Py3Rules`: each script's normalisation and its three patterns.
- `Tokens`: the stop-word list and the acceptance test (no digit, at least three
  characters, not a stop word).
- `Frequency`: the dictionary `d`. It is a table of keys in insertion order plus a map
  of counts. The source's `if word not in d` update is written as a method and
  specified by `Record` / `RecordAll`.
- `Ranking`: `sorted(d.items(), key = count, reverse = True)`, modelled as a stable
  insertion sort on counts, highest first.
- `Scanner`: the `flag` state machine and the per-document loop.
  - Specification: `Classify`, `Step` and `Run`.
  - Imperative code: `ScanDocument`, `ScanLine` and `CountWords`, each proved equal to
    the specification.
  - The properties of a document's dictionary are lemmas about `Run`.
- `Workbook`: the outer loop over the filings. It produces one worksheet per filing,
  titled with the year `count + 2006` and holding the label row and then the ranked
  entries.

Three behaviours of the code that the model keeps as written:

- **Page-number test.** The Python 2 page-number test requires the whole normalised line
  to be digits (`^[0-9]+$`, Apple-SEC-filings-py2.py:162). The Python 3 test looks only
  at the first character (`^[0-9]`, Apple-SEC-filings.py:139).
- **Tie order.** `sorted` is stable, so words of equal count keep the order in which
  `d.items()` lists them (Apple-SEC-filings-py2.py:217, Apple-SEC-filings.py:193). On
  Python 3.7 or later, `dict` lists its keys in insertion order, so ties keep the order
  in which the words were first counted. A Python 2 `dict` lists its keys in an
  unspecified order, so for the Python 2 script only the permutation and the ordering
  by count hold. The model uses insertion order for both scripts, so
  `Workbook.TiesInFirstSeenOrder` describes the Python 3 script only.
- **Heading at the end of the line.** Both heading patterns anchor `Factors` at the very
  end of the line (`Factors$`, Apple-SEC-filings-py2.py:151, Apple-SEC-filings.py:129).
  The Python 2 script removes punctuation and non-ASCII characters after the strip
  (Apple-SEC-filings-py2.py:142-146). What it removes can leave trailing spaces, and
  then the heading does not match.

## Model

| member | source | states |
|---|---|---|
| Text.Filter | Apple-SEC-filings-py2.py:142-146 | a join over a comprehension keeps only characters that pass the test, and none longer than the input |
| Text.FilterCounts | Apple-SEC-filings-py2.py:142-146 | filtering keeps every occurrence of each kept character and removes all others (counts per character) |
| Text.LeadingSpaces | Apple-SEC-filings.py:125 | the leading run of whitespace: all of it is whitespace and the next character is not |
| Text.SpacesBefore | Apple-SEC-filings.py:125 | the run of whitespace that ends at a position: all whitespace, and preceded by a non-space or by the start of the line |
| Text.Strip | Apple-SEC-filings.py:125 | `strip()` returns the infix that starts after the leading whitespace and is followed only by whitespace; it is empty exactly for all-space lines, and otherwise neither starts nor ends with a space |
| Text.WordLength | Apple-SEC-filings.py:161 | a word runs up to the next space or the end of the line |
| Text.Words | Apple-SEC-filings.py:161 | `split()` yields non-empty words without spaces whose concatenation is the line with its spaces removed |
| Text.WordsOfWord | Apple-SEC-filings.py:161 | a non-empty line without spaces is split into exactly one word, itself |
| Text.WordsSplit | Apple-SEC-filings.py:161 | a space separates words: the words of `a`, a space, `b` are the words of `a` followed by the words of `b`; with `WordsOfWord` this fixes `split()` as the maximal runs of non-space characters |
| Text.WordLengthIsFirstSpace | Apple-SEC-filings.py:161 | the first word ends exactly at the first space |
| Text.FirstWordBeforeSpace | Apple-SEC-filings.py:161 | a word before a space ends before that space |
| Text.WordsChars | Apple-SEC-filings.py:161 | every character of a word is a character of the line |
| Text.IsSpace | Apple-SEC-filings.py:121-125 | `str.isspace()` of Python 3: the Unicode whitespace characters |
| Text.FilterAppend | Apple-SEC-filings-py2.py:142-146 | filtering distributes over concatenation |
| Text.FilterAll | Apple-SEC-filings-py2.py:142-146 | filtering a string whose characters all pass leaves it unchanged |
| Text.LowerChar | Apple-SEC-filings.py:160 | an upper-case ASCII letter becomes its lower-case letter, and any other character is unchanged |
| Text.AsciiLower | Apple-SEC-filings.py:160 | ASCII lower-casing: each character is mapped on its own by `LowerChar`, so only the letters A to Z change, and the length is kept |
| Patterns.EndsWithPairMeansSuffixMatch | Apple-SEC-filings-py2.py:151 | the computed heading test holds exactly when `A<space>*B$` matches somewhere in the line |
| Patterns.StartsWithPairMeansPrefixMatch | Apple-SEC-filings-py2.py:169 | the computed end-marker test holds exactly when `^A<space>*B` matches |
| Tokens.Accept | Apple-SEC-filings-py2.py:190-191 | a word is counted unless it holds a digit, is shorter than three characters, or is one of the `stopWords` of lines 47-62 (the set `Tokens.StopWords`, the same list in both scripts) |
| Tokens.Kept | Apple-SEC-filings-py2.py:184-192 | the words kept from a line are exactly the transformed words that pass the test, and there are no more of them than words |
| Tokens.KeptOne | Apple-SEC-filings-py2.py:189-192 | one word is kept, after the lemmatizer, exactly when the result passes the test |
| Tokens.KeptAppend | Apple-SEC-filings-py2.py:184-192 | the inner loop keeps line order: the words kept from `a + b` are those kept from `a` followed by those kept from `b` |
| Tokens.KeptCounts | Apple-SEC-filings-py2.py:184-192 | each transformed word that passes is kept as often as it occurs, and every other word not at all |
| Frequency.Record | Apple-SEC-filings-py2.py:193-196 | a new word gets count 1 and is appended to the key order; a known word's count goes up by one; no other count changes |
| Frequency.RecordValid | Apple-SEC-filings-py2.py:193-196 | recording keeps keys distinct, keys equal to the counted words, and counts positive |
| Frequency.Count | Apple-SEC-filings.py:169-172 | the in-place dictionary update is exactly `Record` |
| Frequency.RecordAll | Apple-SEC-filings.py:162-172 | recording a sequence keeps every listed key counted |
| Frequency.RecordAllAppend | Apple-SEC-filings.py:162-172 | recording two sequences in turn equals recording their concatenation |
| Frequency.RecordAllCounts | Apple-SEC-filings.py:169-172 | from an empty dictionary, the keys are exactly the words seen and each count is the number of occurrences of its word |
| Frequency.CountsStep | Apple-SEC-filings.py:169-172 | one more recorded word keeps the counts equal to the occurrence counts |
| Frequency.RecordTotalOld | Apple-SEC-filings.py:171-172 | incrementing a known word adds one to the sum of the counts |
| Frequency.RecordTotalNew | Apple-SEC-filings.py:169-170 | inserting a new word with count 1 adds one to the sum of the counts |
| Frequency.RecordAllTotal | Apple-SEC-filings.py:169-172 | the counts add up to the number of words recorded |
| Frequency.FirstIndex | Apple-SEC-filings.py:169-170 | the first position of a word: it is there, and at no earlier position |
| Frequency.OrderStep | Apple-SEC-filings.py:169-172 | one more word keeps the keys in order of first occurrence: a known word changes nothing and a new word goes last |
| Frequency.RecordAllOrder | Apple-SEC-filings.py:169-172 | the dictionary lists its keys in the order in which the words first occurred |
| Ranking.Items | Apple-SEC-filings.py:193 | `d.items()` pairs each key with its count, in key order |
| Ranking.TiesOrderedGroups | Apple-SEC-filings.py:193 | if equal counts are in order, then each group of one count is in order |
| Ranking.GroupsTiesOrdered | Apple-SEC-filings.py:193 | if each group of one count is in order, then equal counts are in order |
| Ranking.StableSortKeepsTies | Apple-SEC-filings.py:193 | a sort that keeps every count's group unchanged keeps ties in their input order |
| Ranking.Insert | Apple-SEC-filings.py:193 | inserting after all entries of at least the same count keeps the list non-increasing, adds exactly that entry, and appends it to its count's group |
| Ranking.SortByCount | Apple-SEC-filings.py:193 | `sorted(..., reverse=True)` by count gives a permutation ordered by non-increasing count, and each count's group keeps its input order (stability) |
| Ranking.Rank | Apple-SEC-filings.py:193 | the ranking is a permutation of `d.items()` in non-increasing order of count |
| Ranking.RankIsStableSort | Apple-SEC-filings-py2.py:217 | the ranking lists each word of the dictionary exactly once with its count, in non-increasing order of count, and keeps the groups of equal count |
| Py2Rules.IsSpace2 | Apple-SEC-filings-py2.py:126 | `unicode.isspace()` of Python 2.7: Python 3's whitespace plus U+180E |
| Py2Rules.RegexSpace | Apple-SEC-filings-py2.py:151 | `\s` without `re.UNICODE`: exactly the six characters of `[ \t\n\v\f\r]` |
| Py2Rules.IsBlank | Apple-SEC-filings-py2.py:126 | `not line.strip()` with Python 2's whitespace |
| Py2Rules.Spaced | Apple-SEC-filings-py2.py:135-136 | each listed space variant and each slash becomes a space, each other character stays, and the length is unchanged |
| Py2Rules.Cleaned | Apple-SEC-filings-py2.py:135-138 | the line with its spaces substituted (`Spaced`) and then stripped; no listed space variant and no slash remains |
| Py2Rules.Hyphenated | Apple-SEC-filings-py2.py:140 | each listed dash becomes `-`, each other character stays, and the length is unchanged |
| Py2Rules.Normalize | Apple-SEC-filings-py2.py:135-146 | the normalised line is all ASCII and has no punctuation other than `-`, no slash and no listed dash |
| Py2Rules.HyphenCount | Apple-SEC-filings-py2.py:140 | after dashes are replaced, the number of hyphens is the old number of hyphens plus the number of dashes |
| Py2Rules.HyphenatedKeepsAscii | Apple-SEC-filings-py2.py:140 | dash replacement does not change how often any other ASCII character occurs |
| Py2Rules.NormalizeKeeps | Apple-SEC-filings-py2.py:138-146 | normalisation keeps every hyphen, turns every dash into one, and keeps every other ASCII non-punctuation character as often as it occurs |
| Py2Rules.IsHeading | Apple-SEC-filings-py2.py:151 | the heading pattern `Risk\s*Factors$` on the normalised line |
| Py2Rules.IsFalsePositive | Apple-SEC-filings-py2.py:162 | `^[0-9]+$`: the normalised line is non-empty and all ASCII digits |
| Py2Rules.IsEndMarker | Apple-SEC-filings-py2.py:169 | the end-marker pattern `^Item\s*1B` on the normalised line |
| Py2Rules.ContentWords | Apple-SEC-filings-py2.py:182-183 | `line.lower().split()`: the words are non-empty and have no space and no capital letter |
| Py2Rules.HeadingIsRegex | Apple-SEC-filings-py2.py:151 | the heading test is `Risk\s*Factors$` with ASCII `\s` |
| Py2Rules.EndMarkerIsRegex | Apple-SEC-filings-py2.py:169 | the end-marker test is `^Item\s*1B` with ASCII `\s` and no period |
| Py2Rules.PageNumberIsNoMarker | Apple-SEC-filings-py2.py:151-169 | an all-digit line is neither a heading nor an end marker |
| Py3Rules.IsBlank | Apple-SEC-filings.py:121 | `not line.strip()` with Python 3's whitespace |
| Py3Rules.Stripped | Apple-SEC-filings.py:121-125 | the stripped line is empty exactly when the line is blank, and otherwise has no space at either end |
| Py3Rules.StripPunctuation | Apple-SEC-filings.py:158-159 | a content line keeps no `string.punctuation` character (hyphen included) and none of the five quote characters |
| Py3Rules.StripPunctuationKeeps | Apple-SEC-filings.py:158-159 | every other character is kept as often as it occurs |
| Py3Rules.IsHeading | Apple-SEC-filings.py:129 | the heading pattern `Risk[\s\u00a0]*Factors$` on the stripped line |
| Py3Rules.IsFalsePositive | Apple-SEC-filings.py:139 | `^[0-9]`: the stripped line begins with an ASCII digit |
| Py3Rules.IsEndMarker | Apple-SEC-filings.py:145 | the end-marker pattern `^Item[\s\u00a0]*1B\.` on the stripped line |
| Py3Rules.ContentWords | Apple-SEC-filings.py:158-161 | punctuation removed, then `line.lower().split()`: the words are non-empty and have no space, no punctuation and no capital letter |
| Py3Rules.HeadingIsRegex | Apple-SEC-filings.py:129 | the heading test is `Risk[\s\u00a0]*Factors$` with Unicode `\s` |
| Py3Rules.EndMarkerIsRegex | Apple-SEC-filings.py:145 | the end-marker test is `^Item[\s\u00a0]*1B\.` and needs the period |
| Py3Rules.PageNumberIsNoEndMarker | Apple-SEC-filings.py:139-145 | a line that starts with a digit is never an end marker |
| Scanner.LineTokens | Apple-SEC-filings-py2.py:182-192 | every word a content line contributes passes the acceptance test |
| Scanner.LineTokensCounts | Apple-SEC-filings-py2.py:182-192 | a content line contributes each of its transformed words once per occurrence exactly when it passes the test, and nothing else |
| Scanner.Classify | Apple-SEC-filings-py2.py:126-178 | blank, then heading only when flag is 0, then page number only when flag is 1, then end marker only when flag is above 1, then content when flag is positive; each branch holds exactly under these conditions, so a heading inside the section, an end marker right after the heading, and a page number inside the section are all content |
| Scanner.Step | Apple-SEC-filings-py2.py:124-196 | after the break nothing changes; inside the section flag never drops unless the scan ends; while searching flag stays at most 1; the break leaves flag at 0 |
| Scanner.Run | Apple-SEC-filings-py2.py:122-196 | the loop over a document's lines from `flag = 0` and an empty dictionary; the dictionary it leaves keeps every listed key counted |
| Scanner.ContentTokens | Apple-SEC-filings-py2.py:178-196 | every word counted in a document passes the acceptance test |
| Scanner.RunCounts | Apple-SEC-filings-py2.py:122-196 | the dictionary is exactly the words of the counted lines recorded in order, and no line is counted while flag is at most 1 |
| Scanner.TableOfDocument | Apple-SEC-filings.py:153-172 | a document's dictionary holds only accepted words, keys exactly the counted words, each count equal to its number of occurrences, counts summing to the number of counted words, and keys in first-seen order |
| Scanner.EndIsFinal | Apple-SEC-filings-py2.py:169-173 | after the end marker no later line changes the state or is counted |
| Scanner.AccumulationGrows | Apple-SEC-filings-py2.py:169-181 | once flag is above 1 it only grows until the end marker stops the scan |
| Scanner.NoHeadingNoWords | Apple-SEC-filings-py2.py:148-178 | if no line is a heading, the scan stays in its starting state and counts nothing |
| Scanner.CountedOnlyAfterHeading | Apple-SEC-filings-py2.py:151-178 | if any line is counted, then some line is a heading |
| Scanner.FalsePositiveUndoesHeading | Apple-SEC-filings-py2.py:151-165 | a heading followed at once by a page number leaves the scan searching with an empty dictionary |
| Scanner.LineEffect | Apple-SEC-filings.py:129-172 | a heading sets flag to 1 with an empty dictionary and counts nothing; a page number after it goes back to the start; the end marker stops the scan without counting; a content line raises flag by one and adds exactly its own words; blank and searching lines change nothing |
| Scanner.CountNext | Apple-SEC-filings-py2.py:184-196 | each word of the inner loop is recorded only if it passes the test |
| Scanner.CountWords | Apple-SEC-filings-py2.py:184-196 | the inner loop over a line's words leaves exactly the dictionary `RecordAll` specifies |
| Scanner.ScanLine | Apple-SEC-filings-py2.py:124-196 | one pass of the loop body computes exactly `Step` |
| Scanner.ScanDocument | Apple-SEC-filings-py2.py:122-196 | the whole line loop, including its `break`, computes exactly `Run` |
| Scripts.RulesOf | Apple-SEC-filings-py2.py:126-192 | each script's blank test, line preparation, three patterns, word split, word transformation (lemmatizer or none) and acceptance test; the Python 3 rules come from Apple-SEC-filings.py:121-167 |
| Scripts.CountedWordsAreAccepted | Apple-SEC-filings-py2.py:189-196 | in either script, every key of `d` has no digit, has at least three characters and is not a stop word, whatever the lemmatizer returns |
| Scripts.PageNumberInsideSection | Apple-SEC-filings.py:139-156 | in either script, a page-number line inside the section is counted as content |
| Scripts.MarkerAfterHeadingIsContent | Apple-SEC-filings.py:139-156 | in either script, an end-marker line right after the heading is counted as content |
| Scripts.EndMarkerPeriod | Apple-SEC-filings.py:145 | "Item 1B" without the period ends the section for the Python 2 script but not for the Python 3 script |
| Workbook.Year | Apple-SEC-filings-py2.py:205 | the `count`-th filing's worksheet is titled `count + 2006` |
| Workbook.SheetFor | Apple-SEC-filings-py2.py:205-221 | a worksheet: its year, the label row, then one row per ranked entry |
| Workbook.Sheets | Apple-SEC-filings-py2.py:73-244 | the i-th worksheet is built from the ranked dictionary of the i-th filing alone |
| Workbook.WriteSheet | Apple-SEC-filings-py2.py:205-221 | the worksheet loop writes the label row and then one row per ranked entry |
| Workbook.ProcessFilings | Apple-SEC-filings-py2.py:73-244 | each filing is scanned from a fresh flag and an empty dictionary, and its ranked dictionary becomes the next worksheet |
| Workbook.SheetRows | Apple-SEC-filings-py2.py:209-221 | a worksheet has the label row followed by one row per ranked entry, in order |
| Workbook.RankedSheetEntries | Apple-SEC-filings-py2.py:217-221 | each entry row holds a word of the dictionary with its count and the year |
| Workbook.RankedSheetCovers | Apple-SEC-filings-py2.py:217-221 | every word of the dictionary has a row |
| Workbook.RankedSheetOrder | Apple-SEC-filings-py2.py:217-221 | the rows go from the highest count to the lowest |
| Workbook.SheetContents | Apple-SEC-filings-py2.py:198-221 | the i-th worksheet is titled 2007 + i and lists every word of that filing's dictionary once, with its count, ordered by count |
| Workbook.NoHeadingEmptySheet | Apple-SEC-filings-py2.py:148-244 | a filing with no heading line gets a worksheet with only the labels, whatever came before |
| Workbook.KeysInFirstSeenOrder | Apple-SEC-filings.py:169-172 | the dictionary's keys are in the order the words were first counted in the filing |
| Workbook.RankedTies | Apple-SEC-filings.py:193-197 | on the worksheet, words of equal count keep the dictionary's key order |
| Workbook.TiesInFirstSeenOrder | Apple-SEC-filings.py:193-197 | on each worksheet, words of equal count appear in the order they were first counted in the filing |

## Left out

- Fetching the filings with `urlopen` and extracting text with BeautifulSoup. This is network I/O and a foreign library. A filing is given as its sequence of lines.
- Writing and re-reading the `httpfileN.txt` temporary files, and the error paths around them. This is file I/O.
- Saving the workbook with openpyxl and choosing between `wb.active` and `wb.create_sheet()`. The workbook is modelled as a sequence of sheets with titled rows.
- Progress messages, the top-10 console listing, and `waitForUser` / `sys.exit`. These are console interaction only.
- The internals of the nltk `WordNetLemmatizer`. It is a foreign call and becomes a function parameter of the Python 2 script.
- General regular-expression semantics. Only the three anchored patterns of each script are modelled.
- `re.MULTILINE`. Lines come from a file iterator, and the model treats a line as holding no line break. Only a break at the very end, which `strip()` removes, could make the flag matter.
- `Text.AsciiLower` lower-cases ASCII letters only, so `Py2Rules.ContentWords` and `Py3Rules.ContentWords` do too. Python 3's `str.lower()` also lowers non-ASCII letters in the Python 3 script, and that is not modelled. The Python 2 script has already dropped non-ASCII characters at that point.
- `Workbook.Sheet` keeps the title as the number `count + 2006`, not as its string.
- The dictionary `d` is cleared at the heading and after each worksheet. The model starts every filing from an empty dictionary. `Scanner.RunCounts` shows that the clear at the heading only ever empties an empty dictionary.
- `Workbook.TiesInFirstSeenOrder` holds for the Python 3 script on Python 3.7 or later only. The Python 2 dictionary order is unspecified, and the model fixes it to insertion order.
