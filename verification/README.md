# Meeting action-item board, modelled in Dafny

The application reads Google Meet transcripts, asks a language model for the
action items in them, and keeps those items on a three-column board
(`todo`, `in_progress`, `done`) that is mirrored into one CSV file,
`action_items.csv`. This project models the core of that program:

- **Board** (`items.dfy`, `kanban.dfy`, `session.dfy`): the board value, the
  handlers that change it (move, delete, add, the add form, appending
  extracted items, clear all, CSV import) and the four moves the board's
  buttons offer. `add_action_item` (app.py:335-352) has no caller in
  app.py: items are added by hand through the form at app.py:595-617. The
  model keeps it as `Session.Add`, with its default assignee and priority.
  `Kanban` states each handler as a function on board values.
  `BoardSession.Session` is the session's board as a class whose three
  buckets the methods update in place. Every change to the board is
  followed by a save into a shared `Store.CsvFile`. Four cases change
  nothing and save nothing: a move whose id is not in `from`, a form with
  an empty task, an empty extraction and a failed import. A delete whose id
  is not in the bucket changes nothing but still saves. The new
  board of each handler method is proved equal to a `Kanban` function:
  - `Move` to `Kanban.Move`;
  - `Delete` to `Kanban.Delete`;
  - `Add`, `SubmitForm` and `AppendExtracted` to `Kanban.AppendTodo`;
  - `Import` to `Kanban.Merge` of `Kanban.Collect`.

  `Save`, `ClearAll` and `ClearAllCorrected` are stated against the save
  functions of `Store` and the empty board instead. The contracts of
  `Move`, `Delete`, `Add`, `SubmitForm` and `Import` state that board ids
  stay unique, for the last three when the fresh ids are fresh.
  `AppendExtracted` states no such thing: extracted items keep whatever id
  the reply gave them (app.py:219-221).
- **Store** (`store.dfy`): `save_action_items_to_csv` and
  `load_action_items_from_csv`, on row records. Proved: the save/load round
  trip, and the behaviour of rows whose status is unknown.
- **Extraction** (`extraction.dfy`, on top of the Python string operations
  in `pystr.dfy`): how `extract_action_items` slices the model's reply into
  JSON text, the synthetic item it returns when there is no JSON, and the
  filling of missing ids. Two slicing quirks are stated as lemmas:
  - a missing closing fence drops the last character;
  - the brace slice is empty when every `}` comes before the first `{`.
- **Transcript** (`transcript.dfy`): `normalize_entry` and its speaker
  fallback chain, and `as_text`. The partner of `as_text` is a proved
  split-after-join round trip.

Inputs the program gets from outside are parameters:
- the model's reply, and the JSON parser applied to it;
- fresh uuids (`newId`, `ids`);
- the save timestamp (`now`).

The model follows the code as written. The "Clear All" handler resets the
board and then calls `save_action_items_to_csv` (app.py:782-783), so it
evidently means to persist the empty board. But the save writes nothing for
an empty board (app.py:255-259), so the old file stays (see Findings).

## Model

| member | source | states |
|---|---|---|
| Items.ParseStatus | app.py:282-284 | only the three bucket names are accepted as a status; an accepted name is the name of the status it yields |
| Items.StatusNamesRoundTrip | app.py:282-284 | every bucket's own name is accepted as that bucket |
| Store.Rows | app.py:240-252 | the flattened rows hold exactly one row per item on the board |
| Store.FlattenRows | app.py:240-252 | the nested loops over buckets and items build exactly the row list `Rows`, in bucket order then item order |
| Store.Load | app.py:264-286 | a missing file loads as three empty buckets; a file never loads more items than it has rows |
| Store.LoadFile | app.py:271-286 | the loop over the rows builds exactly the board `Load` describes |
| Store.LoadAppendRow | app.py:282-284 | a row with an unknown status changes nothing; a row with a known status appends its item to the end of that bucket and leaves the others alone |
| Store.LoadSize | app.py:273-284 | at most one item per row, and exactly one per row when every status is known |
| Store.SaveLoadRoundTrip | app.py:236-286 | loading the rows a save writes gives back the same three buckets in the same order |
| Store.SaveAsWritten | app.py:255-259 | the save writes, and reports it, exactly when the board has an item; a written file loads back to the board; otherwise the previous file stays |
| Store.ClearedBoardComesBack | app.py:781-785 | after clearing a board whose file mirrors it, the save writes nothing and the next load brings every cleared item back |
| Store.SaveSnapshot | app.py:236-262 | the corrected save always leaves a file that loads back to the board, empty or not |
| Kanban.FirstIndex | app.py:306-309 | the scan stops at the first item carrying the id, or runs off the end when none does |
| Kanban.FirstIndexFound | app.py:306-309 | the scan finds a position exactly when the id is in the bucket |
| Kanban.Move | app.py:300-317 | an absent id changes nothing; otherwise the first match leaves `from` and is appended to `to`, the third bucket is untouched and the item count is kept |
| Kanban.MoveKeepsIds | app.py:306-313 | a move keeps the multiset of ids on the board |
| Kanban.MoveKeepsUnique | app.py:300-317 | a move keeps board ids unique |
| Kanban.Delete | app.py:320-332 | the first match in the named bucket is removed and nothing else changes; the item count drops by one exactly when the id was in that bucket |
| Kanban.DeleteIds | app.py:324-327 | a delete removes exactly one occurrence of the id when the bucket holds it, none otherwise |
| Kanban.DeleteKeepsUnique | app.py:320-332 | a delete keeps board ids unique |
| Kanban.AppendTodo | app.py:348 | appending keeps `todo` as a prefix, puts the new items after it in order, and leaves the other buckets alone |
| Kanban.AppendTodoIds | app.py:348 | appending adds exactly the new items' ids to the board |
| Kanban.AddFreshKeepsUnique | app.py:335-352 | adding an item whose fresh id is not on the board keeps board ids unique |
| Kanban.FormItem | app.py:605-612 | the form's item carries the fresh id, the typed task description, assignee and priority, "Manually added" as context, and the typed deadline, or "No deadline" when the field is empty |
| Kanban.OfferedMoves | app.py:670-696 | the buttons never move between `todo` and `done` directly or within one bucket; every offered move can be undone; any bucket reaches any other through `in_progress` |
| Kanban.TodoToDone | app.py:670-685 | moving an item to `in_progress` and on to `done` appends it to `done` and leaves it in no other bucket |
| Kanban.FirstMissing | app.py:800-808 | the lookup fails exactly when a required column is missing, and names a required column that the row lacks |
| Kanban.Merge | app.py:813-814 | every bucket keeps its items and gets the imported ones after them; the item count is the sum |
| Kanban.CollectFails | app.py:796-821 | the import fails exactly when some row lacks a required column, and the error names a required column |
| Kanban.CollectIsLoad | app.py:797-810 | a successful import builds the board that loading the same rows under the fresh ids would build |
| Kanban.CollectIds | app.py:799-810 | every imported item carries one of the fresh ids, no id more often than it was supplied |
| Kanban.ImportKeepsUnique | app.py:797-814 | merging an import made with distinct fresh ids keeps board ids unique |
| BoardSession.Session.constructor | app.py:291-297 | the session's board starts as whatever the shared file loads to |
| BoardSession.Session.Save | app.py:236-262 | the file is overwritten exactly when the board is non-empty, as the as-written save says |
| BoardSession.Session.Move | app.py:300-317 | reports whether the id was in `from`; the new board is `Kanban.Move` of the old; the file is saved only after a move; unique ids stay unique |
| BoardSession.Session.Delete | app.py:320-332 | the new board is `Kanban.Delete` of the old; the board is saved whether or not anything was removed; unique ids stay unique |
| BoardSession.Session.Add | app.py:335-352 | the manual item (deadline "No deadline", context "Manually added", assignee "Unassigned" and priority "Medium" unless given) is appended to `todo` and the file holds the new board; a fresh id keeps ids unique |
| BoardSession.Session.SubmitForm | app.py:603-617 | an empty task changes nothing; otherwise the form's item is appended to `todo` and saved |
| BoardSession.Session.AppendExtracted | app.py:580-586 | extracted items are appended to `todo` in order and saved; an empty extraction changes nothing, not even the file |
| BoardSession.Session.ClearAll | app.py:781-785 | the board becomes empty and, as written, the file keeps its old rows |
| BoardSession.Session.ClearAllCorrected | app.py:781-785 | the board becomes empty and the file loads back as the empty board |
| BoardSession.Session.Import | app.py:794-821 | fails with the missing column exactly when the rows do, changing nothing; otherwise merges the imported buckets, saves, reports the imported count, and keeps ids unique under fresh ids |
| BoardSession.Scan | app.py:306-309 | the `enumerate` loop of move and delete stops at the first item carrying the id, or runs to the end when none does |
| BoardSession.CollectRows | app.py:799-810 | the import loop builds exactly the imported board `Kanban.Collect` describes, or stops with the first missing column |
| PyStr.Find | app.py:197-198 | the result is the first occurrence at or after the start, or -1 when there is none |
| PyStr.ContainsIff | app.py:196 | `in` holds exactly when the text occurs somewhere |
| PyStr.RFind | app.py:202 | the result is the last occurrence, or -1 when there is none |
| PyStr.Slice | app.py:199 | in-range bounds slice as usual; crossed bounds give the empty string; an end of -1 stops one short of the end |
| PyStr.Strip | app.py:193 | the result is no longer than the input and neither starts nor ends with whitespace |
| PyStr.StripKeepsInfix | app.py:193 | strip keeps a contiguous part of the text and removes only whitespace around it |
| PyStr.StripIdempotent | app.py:193 | stripping twice is stripping once |
| PyStr.StripFramed | app.py:199 | strip removes exactly the whitespace around a text that has none at its ends |
| Extraction.ChooseTier | app.py:196-213 | a "```json" fence takes precedence; braces are used only without a fence and only when both `{` and `}` occur; otherwise there is no JSON |
| Extraction.FencedClosed | app.py:196-199 | with a closing fence, the parser gets the stripped text between the opening fence and the next closing fence |
| Extraction.FencedUnclosedDropsLast | app.py:197-199 | without a closing fence, the parser gets the rest of the text minus its last character |
| Extraction.BracedSpan | app.py:200-203 | without a fence, the parser gets the text from the first `{` to the last `}`, both included |
| Extraction.BracedReversedIsEmpty | app.py:200-203 | when every `}` precedes the first `{`, the parser gets the empty string |
| Extraction.FencedReply | app.py:196-199 | a reply of prose without backticks followed by a fenced JSON block hands the parser exactly that JSON |
| Extraction.Truncate | app.py:212 | text of at most 200 characters is kept; longer text becomes its first 200 characters plus "..." |
| Extraction.FallbackItem | app.py:204-213 | the fallback item has exactly the six keys, the fixed task, assignee, deadline and priority, and the truncated reply as context |
| Extraction.WithId | app.py:219-221 | an item with an id keeps it unchanged; an item without one gains the fresh id and nothing else changes |
| Extraction.FillIds | app.py:219-221 | every parsed item, in order, is id-filled with its own fresh id |
| Extraction.Extract | app.py:193-227 | a failed call or parse gives no items; a reply without JSON gives exactly the fallback item; otherwise the parsed items, each id-filled; every returned item has an id |
| Transcript.SpeakerName | app.py:140-142 | the speaker is the display name, else the obfuscated user id, else "Speaker", with empty strings skipped; it is never empty |
| Transcript.Normalize | app.py:136-144 | times pass through unchanged, the speaker is the one the fallback chain picks and is never empty, and a missing text becomes "" |
| Transcript.NormalizeAll | app.py:517 | every entry keeps its place and is the normalised raw entry at that place |
| Transcript.Line | app.py:150 | every line starts with the `[` of the start-time field |
| Transcript.LineStartEnds | app.py:150 | the first "] " of a line closes the start-time field when the start time holds no `]` |
| Transcript.LineSpeakerEnds | app.py:150 | the first ": " after the start-time field closes the speaker when the speaker holds no `:` |
| Transcript.LineReadsBack | app.py:150 | reading a line back as `[start] speaker: text` gives the printed start time, the speaker and the text, when the start time holds no `]` and the speaker no `:` |
| Transcript.MissingStartPrintsNone | app.py:136-150 | an entry without a start time prints as `[None] ` followed by speaker and text |
| Transcript.AsText | app.py:147-151 | the loop builds one line per entry and the text is those lines joined by newlines; no entries give "" |
| Transcript.SplitJoin | app.py:151 | splitting the joined text at newlines gives the lines back when no line holds a newline |
| Transcript.TextLinesRoundTrip | app.py:147-151 | a transcript whose fields hold no newline splits back into exactly one line per entry, in order |

## Left out

- Google sign-in, token refresh and ID-token decoding (app.py:56-101, 367-414): library calls and foreign token formats.
- Listing meetings, transcripts and entries with pagination (app.py:104-133, 439-516): network I/O. The entries arrive as a sequence of `Transcript.RawEntry`.
- The language-model call and its prompt (app.py:161-192): a foreign service. The reply is the `response` parameter of `Extraction.Extract`, `None` when the call raises.
- `json.loads` and `.get("action_items", [])` (app.py:215-216): a library parser. They are the `parse` parameter, and parsed items are maps from strings to strings. JSON values of other types are not modelled, and neither are items that are not objects. A number or null item, or a string or list item without "id", makes the id loop raise and the extraction return `[]`. A string or list item that contains "id" (the string "Send slides to David", say) passes the loop unchanged and is appended to the board; the next save then fails on `item['id']` inside its own `try`, so nothing is written.
- CSV text, quoting and pandas typing: the file is a sequence of `Store.Row` records. Cells that `pd.read_csv` reads as NaN are not modelled: empty cells, and cells holding one of its default missing-value strings ("NA", "N/A", "null", "None", "nan" and the others). In the program a saved field such as a deadline "N/A" therefore comes back as NaN, so `Store.SaveLoadRoundTrip` holds only for boards without such field values. Non-string ids are not modelled either. The file-existence check is `None` versus `Some`.
- A CSV file that exists but cannot be read (app.py:287-289): the file is a value that is either absent or a sequence of rows.
- A save that raises (app.py:260-262): writing always succeeds in the model.
- `datetime.now()` in `created_date` (app.py:251): one `now` parameter per save. The source takes a fresh timestamp for every row.
- `uuid.uuid4()`: fresh ids are parameters. Their freshness is a precondition of the uniqueness results, and the source does not check it.
- Streamlit rendering, `st.rerun`, messages and metrics. Also left out: gating the export, clear and import section on a non-empty board (app.py:726), and re-importing a file that stays uploaded across reruns.
- CSV and JSON export (app.py:733-777): read-only downloads that do not change the board.
- `BoardSession.Session.AppendExtracted` takes complete `ActionItem` records. The source appends the parsed dictionaries as they are, and a later save of one that lacks a field raises inside the save and writes nothing.
- `Transcript.RawEntry`: an absent key is `None`. A `speaker` key holding JSON null (which makes `normalize_entry` raise) and a `text` key holding null (printed as `None`) are not modelled.
- Concurrent sessions that share the CSV file: there is one shared `Store.CsvFile` object and no interleaving.
- Status names outside the three buckets in move and delete (a `KeyError` in the source): the `Status` type rules them out.
- Store.SaveLoadRoundTrip: holds for the row records of the model; in the program, fields holding a pandas missing-value string or nothing at all come back as NaN after a save and a load.
- Kanban.FirstMissing: states that the named column is a missing required column, not that it is the first missing one in column order. The minimality clause was left unproved.

## Findings

| source | as written | input that shows it | evidently intended | confidence | as-written member | corrected member |
|---|---|---|---|---|---|---|
| app.py:255-259 | the save writes the file only when the board has at least one item, so saving an empty board leaves the previous file in place | a board with one item is saved; "Clear All" (app.py:781-785) or deleting that item (app.py:320-332) then saves the empty board, and the file still holds the item, which the next session loads back | every save, clear-all included, replaces the file with the current board, empty or not | not executed | Store.ClearedBoardComesBack | Store.SaveSnapshot |
