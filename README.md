# Flower dictionary core, modelled in Dafny

`flower_app.py` is a Streamlit page for a flower dictionary (花言葉図鑑). Under
its UI sit three pieces of logic, and this project models them together with
the quiz page's session state:

- **Dataset loading** (`load_data`). Every discovered CSV file is read with
  the encoding fallback utf-8 → shift_jis → cp932. A file that cannot be read
  is skipped with a warning. The frames that were read are concatenated. Rows
  whose `name` repeats an earlier row's are dropped, so the first one is
  kept. Missing cells are filled with `""`.
- **Record queries** over the loaded rows: the sorted list of names, lookup of
  the first row with a given name, and a case-insensitive keyword search over
  every cell of a row.
- **Image lookup** (`get_wiki_image`): a search on the Wikipedia API for
  "<name> 植物". If that finds no page, the search is retried once with the
  bare name. The first page's `original.source` becomes the image URL. Every
  exception turns into a "通信エラー: …" message.
- **Quiz session** (`next_question`, `open_answer`, the random draw): the
  flower shown and the answer-shown flag.

Files and modules:

- `common.dfy` (`Common`): `Option` and the subsequence relation.
- `text.dfy` (`Text`): Python's string order, insertion sort, and substring
  search that ignores case.
- `frames.dfy` (`Frames`): rows, frames, `concat`, `drop_duplicates`,
  `fillna`.
- `loader.dfy` (`Loader`): per-file encoding fallback, the `load_data` loop,
  and the merge.
- `records.dfy` (`Records`): sorted names, lookup, search.
- `wiki_image.dfy` (`WikiImage`): the image lookup. The requests and their
  responses are an oracle.
- `session.dfy` (`Session`): the session state as a class.

Modelling choices:

- A row is a map from column name to cell text. A column absent from the map
  is a missing value (pandas' NaN).
- A frame is its set of header columns plus its rows in order.
- The de-duplication key is `Option<string>`, because `drop_duplicates` treats
  all missing names as equal.
- A discovered file is its path plus the outcome of `read_csv` under each of
  the three encodings: a frame, or an exception. The exception records whether
  it is a `UnicodeDecodeError`, and its text.
- The sequence of files is the order `glob` returned.
- The HTTP exchange is a function `fetch` from the request sent (URL,
  parameters, User-Agent, timeout) to the response: an exception raised by
  `requests.get`, or a status code, the HTTPError text, and the decoded body.
- The random choice is the index `random.choice` picks, passed in by the
  caller.

Behaviour of the code worth stating:

- Only the first request calls `raise_for_status`. An error status on the
  bare-name retry is not an error: its body is read like any other.
- A first page that has `original` but no `source` raises KeyError inside the
  `try`. The result is then "通信エラー: 'source'", not "画像が見つかりませんでした".
- If no file that was read has a `name` column, `drop_duplicates(subset=['name'])`
  raises KeyError. This happens outside every `try`, so the script stops. It
  is modelled as the outcome `NameColumnMissing`.
- A utf-8 failure other than `UnicodeDecodeError` skips the file at once;
  shift_jis and cp932 are not tried. Any shift_jis failure moves on to cp932.
- An empty query runs no search at all (`Search` returns `None`).
- The final `return None, "不明なエラー"` is unreachable
  (`WikiImage.UnknownErrorUnreachable`).

## Model

| member | source | states |
|---|---|---|
| Text.SortStrings | flower_app.py:141 | The result is sorted ascending in Python's string order and is a permutation (same multiset) of the input |
| Text.SortedUnique | flower_app.py:141 | Two sorted permutations of the same strings are equal, so this sort agrees with Python's `sorted` |
| Frames.Concat | flower_app.py:106 | The concatenated header is exactly the union of the headers. The row count is the sum of the frames' row counts. Row k of frame i sits at position (rows of frames 0..i-1) + k, so every file's rows come in file order and keep their order within the file. Well-formedness is kept |
| Frames.ConcatAppend | flower_app.py:106 | Concatenation keeps frame order: the rows of an earlier run of frames come before those of a later run |
| Frames.DropDuplicates | flower_app.py:107 | The result has unique names and the same set of names. It is exactly the rows at the first-occurrence positions of the input, taken in increasing position order, so a later identical copy never takes a first row's place. With no repeated name, nothing is dropped |
| Frames.DropDuplicatesCount | flower_app.py:107 | After de-duplication there is exactly one row per distinct name |
| Frames.FillNa | flower_app.py:108 | Afterwards every row has a cell in every column. Cells that held a value keep it, missing ones become "". The header and row count are unchanged |
| Frames.FilledNamesUnique | flower_app.py:107-108 | Names stay distinct after the fill, provided no name read was already "" |
| Frames.FirstRowKept | flower_app.py:107-108 | After de-duplication and the fill, a non-empty name is carried by exactly one row, holding the cells of the first row with that name |
| Loader.TriedEncodings | flower_app.py:95-101 | Encodings are tried in the order utf-8, shift_jis, cp932. shift_jis is tried only after a UnicodeDecodeError under utf-8, and cp932 only after any shift_jis failure |
| Loader.ReadCsv | flower_app.py:94-104 | A file is read iff utf-8 parses it, or utf-8 failed with a decoding error and shift_jis or cp932 parses it |
| Loader.ReadCsvDecidedByLastTried | flower_app.py:94-104 | The outcome of a file is the frame or the exception text of the last encoding tried, and every earlier one raised |
| Loader.LoadData | flower_app.py:88-111 | The loop returns exactly `Load(files)` and the warnings `Warnings(files)` |
| Loader.ParsedFramesAppend | flower_app.py:92-104 | Frames and warnings are produced file by file in discovery order (a homomorphism over concatenation of file lists) |
| Loader.ParsedFramesCount | flower_app.py:92-104 | Every file gives either one frame or one warning |
| Loader.ParsedFramesEmpty | flower_app.py:92-104 | No frame is read iff every file is skipped |
| Loader.LoadNoData | flower_app.py:89-91 | `load_data` returns None iff there is no file or every file fails to read |
| Loader.LoadNameColumnMissing | flower_app.py:105-107 | The KeyError outcome happens iff some file was read and no file read has a `name` column |
| Loader.SkippedFileIgnored | flower_app.py:103-104 | An unreadable file adds its warning and changes nothing else: the frames read are those of the other files |
| Loader.LoadedFrame | flower_app.py:105-109 | A loaded frame has a `name` column and no missing cell. It has one row per distinct name, so no more rows than were read, and exactly as many when the names are disjoint |
| Loader.FirstRowWins | flower_app.py:106-107 | For a non-empty name, the loaded frame has exactly one row with it. That row carries the cells of the earliest row with the name, in file order then row order |
| Records.LoadedRowsHaveNames | flower_app.py:117 | Every loaded row has a name, so the queries apply to it |
| Records.SortedNames | flower_app.py:141 | The listed names are sorted ascending and are a permutation of the rows' names |
| Records.SortedNamesMembers | flower_app.py:141-142 | A name is listed iff some row carries it |
| Records.SortedNamesOrderFree | flower_app.py:141 | The list does not depend on the order in which rows were loaded |
| Records.FindByName | flower_app.py:143 | The result is None iff no row has the name. Otherwise it is the first row with that name |
| Records.SelectedNameFound | flower_app.py:141-143 | Every name offered in the selection box finds a record with that name |
| Records.Filter | flower_app.py:164 | A row is in the result iff it is a row of the table and some cell contains the query, ignoring case. A matching row is kept as often as it occurs and a non-matching row never; table order is kept |
| Records.Search | flower_app.py:163-164 | An empty query runs no search; any other query gives the matching rows, each as often as it occurs, in table order |
| Records.FilterIgnoresCase | flower_app.py:164 | Queries that differ only in letter case find the same rows |
| WikiImage.ToPair | flower_app.py:49-84 | Exactly one side of the returned pair is present: the URL for an image, else the reason's message text |
| WikiImage.PagesDecision | flower_app.py:77-84 | Only the first page decides. A URL is returned exactly when that page has "original" with a "source", and it is that source. No "original" gives "画像が見つかりませんでした"; "original" without "source" gives the KeyError text as a communication error; only an empty page list reaches "不明なエラー" |
| WikiImage.Resolve | flower_app.py:48-84 | An empty name, and only an empty name, gives "名前が空です" with no request. The first request searches "<name> 植物". Pages found by it decide the result through `PagesDecision`, with no retry. A second request is sent only after the first read no page, and it differs only in `gsrsearch` set to the bare name; pages it finds decide through `PagesDecision`. "検索結果が0件でした" comes exactly when that retry was decoded with no page. A URL is the first page's source in the last response |
| WikiImage.UnknownErrorUnreachable | flower_app.py:75-84 | The closing "不明なエラー" return is never reached |
| WikiImage.RetryIff | flower_app.py:69-74 | The retry is sent iff the name is not empty and the first search was read without error and found no page |
| WikiImage.RequestErrors | flower_app.py:65-83 | Every failure becomes a communication error carrying its text: an exception from either `requests.get`, an HTTP error status of the first response, and a body `response.json()` cannot decode on either response |
| WikiImage.FallbackSucceeds | flower_app.py:69-81 | With no page for "<name> 植物" and an image on the first page for the bare name, the result is that image, whatever the second response's status |
| WikiImage.OnlyFirstPageMatters | flower_app.py:77-81 | Pages after the first never change the outcome |
| WikiImage.DecidePages | flower_app.py:77-84 | The loop over the pages returns exactly the pair of `PagesDecision` |
| WikiImage.GetWikiImage | flower_app.py:48-84 | The method, which updates the parameter map in place for the retry, returns the pair of `Resolve` and sends exactly its requests in order |
| Session.QuizSession.constructor | flower_app.py:199-202 | The session starts with no flower drawn, no quiz flower, and the answer hidden |
| Session.QuizSession.DrawRandom | flower_app.py:182-183 | The drawn flower is the chosen loaded row. With no rows, `random.choice` fails and nothing changes |
| Session.QuizSession.NextQuestion | flower_app.py:203-205 | The quiz flower becomes the chosen loaded row and the answer is hidden. Other state is unchanged |
| Session.QuizSession.OpenAnswer | flower_app.py:206-207 | The answer is shown and the flowers are unchanged |
| Session.QuizSession.EnsureQuestion | flower_app.py:208-209 | A question is drawn only when there is none, and then the answer is hidden. An existing question and its answer state are kept. Afterwards there is a question unless there are no rows, and in that case nothing changes |

## Left out

- The Streamlit UI is not modelled (page setup, CSS, sidebar, widgets, images, spinners, error and warning display, `st.stop`). It is presentation only. The warnings are returned as a list of message texts.
- The `st.cache_data` memoisation of both functions (with its one-hour TTL for images) is not modelled. It belongs to the framework. For the same `fetch` and the same files a cached answer equals a recomputed one. In the program, however, the image cache is keyed on the name alone, so any result, a "通信エラー: …" from a passing network failure included, is reused for up to an hour; and `load_data` has no TTL, so later edits to `data/*.csv` are not seen until the cache is cleared.
- The real HTTP exchange with Wikipedia is not modelled: `fetch` is an oracle. Only the JSON shapes the code inspects are modelled. A `source` that is JSON null, or a page that is not an object, is not represented.
- File discovery with `glob` is not modelled: the files arrive as a sequence in discovery order. CSV parsing and decoding are foreign library calls; each file is modelled as what `read_csv` gives under each encoding.
- Cells are text. The dtype inference of pandas, and the `astype(str)` rendering of numbers, are not modelled. The order of the header columns is not modelled, since no modelled operation depends on it.
- `Records.Matches` models `str.contains(query, case=False)` as a literal substring test on lower-cased text. pandas treats the query as a regular expression, so the model is faithful only for queries without regex metacharacters.
- `Text.LowerChar` lower-cases only ASCII letters. Full Unicode case folding is not modelled.
- `random.choice` is not modelled: the caller passes the index it picks. On an empty list `random.choice` raises, which ends the script. The model reports this as `ok == false` and leaves the state unchanged.
- `get_wiki_image(None)` is not modelled: the name is always a string, because every loaded row has a name cell.
- Frames.FilledNamesUnique: it assumes that no name cell read was "". With its default settings `read_csv` turns empty fields into missing values, so read cells are never "".
