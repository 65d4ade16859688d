# Knowledge Evaluator — a Dafny model of its deterministic core

The Knowledge Evaluator is a single-user Streamlit application (`tutor.py`).
A person keeps plain-text notes in `My_Knowledge/`, edits them, and asks a
Gemini model to critique one. The reply has three fields: what's right,
what's wrong, recommendations. The application shows the reply and archives
it as JSON under `My_Knowledge/evaluations/<stem>_evaluation/`.

This project models the parts of `tutor.py` that are logic rather than page
rendering:

- **Knowledge store** (`workspace.dfy`, class `Workspace`). Create, delete and
  save-if-changed act on a map from file name to text. The sidebar listing
  returns the `.txt` names in ascending order.
- **Evaluation archive** (`Workspace.SaveEvaluation`, `Workspace.ListHistory`).
  The archive is a map from folder name to the records in that folder. The
  names follow `save_evaluation_as_json`. `paths.dfy` derives them with the
  POSIX (`posixpath`) semantics of `os.path.join` and `os.path.splitext`. `timestamps.dfy` holds
  the `%Y%m%d_%H%M%S` stamp.
- **Listings** (`listing.dfy`). A folder's entries, read in any order, are
  filtered by suffix and then sorted with Python's string order
  (`strings.dfy`).
- **Evaluation request** (`review.dfy`). The prompt is built from the focus
  table. The panels come from the three fields, with the raw reply shown as
  the fallback.
- **Evaluate action and session log** (`Workspace.EvaluateContent`, class
  `Session`). The endpoint is a function parameter.

The main results proved:

- Record names of one file sort in chronological order, and two timestamps
  that differ to the second never share a name.
- A listing is fully determined by the names in the folder, so the order in
  which the folder was read does not show.
- The prompt determines both the focus and the note's text.
- The history tab's folder agrees with the save folder exactly when the file
  name has at most one dot and does not start with one.

In these details the model follows the code:

- A new file is always created empty (`tutor.py:179`).
- A reply is appended to the session log before it is decoded (`tutor.py:343-372`).
  An undecodable reply is therefore logged but not archived.
- A record written in the same second as an earlier one for the same file
  replaces it, because `open(..., "w")` overwrites (`tutor.py:27`).
- The "stem" is what `os.path.splitext` returns. So `.txt` keeps its full name
  and is archived under `.txt_evaluation`.

## Model

| member | source | states |
|---|---|---|
| `Strings.BelowTransitive` | tutor.py:202 | Python's string order used by `sort()` is transitive |
| `Strings.BelowTotal` | tutor.py:202 | any two different names are ordered one way or the other, so sorting names has one answer |
| `Strings.BelowAppend` | tutor.py:23 | names built from equal-length leading parts compare on those parts first |
| `Timestamps.Stamp` | tutor.py:22 | the record stamp has 15 characters: digits, with `_` at position 8 |
| `Timestamps.LogStamp` | tutor.py:348 | the session-log stamp has the `YYYY-MM-DD HH:MM:SS` layout, and its digit fields read, in order, the date and time of day of the instant (the `%Y%m%d` and `%H%M%S` parts of the record stamp) |
| `Timestamps.DigitsOrder` | tutor.py:22 | zero-padded fields of one width sort as strings exactly as they sort as numbers, and are equal only for equal numbers |
| `Timestamps.DateOrder` | tutor.py:22 | the `%Y%m%d` part sorts as strings in calendar order and is equal only for the same day |
| `Timestamps.ClockOrder` | tutor.py:22 | the `%H%M%S` part sorts as strings in time-of-day order and is equal only for the same second |
| `Timestamps.StampOrder` | tutor.py:22 | one stamp sorts below another exactly when its whole-second timestamp is earlier; stamps are equal only for the same second |
| `Paths.Join` | tutor.py:18 | `os.path.join` on POSIX: an absolute part replaces the path; otherwise parts are joined with one `/` |
| `Paths.SplitExt` | tutor.py:17 | `splitext` splits the name into stem and extension, which concatenate back to the name |
| `Paths.ExtensionShape` | tutor.py:17 | the extension is empty or starts with its only dot, and contains no `/` |
| `Paths.EvaluationFolderName` | tutor.py:17 | the save folder `<splitext stem>_evaluation`; what it is for `.txt` names is stated by `Paths.TxtFolder` and `Paths.SavedFolder` |
| `Paths.RecordName` | tutor.py:22-23 | the record name `<stem>_<stamp>.json`; its order and distinctness are stated by `Paths.RecordsChronological`, its suffix by `Paths.RecordIsJson` |
| `Paths.RecordPath` | tutor.py:13-24 | the returned record path; its layout is stated by `Paths.RecordPathLayout` |
| `Paths.HistoryFolderAsWritten` | tutor.py:414 | the folder the history tab lists, `<text before the first dot>_evaluation`; when it agrees with the save folder is stated by `Paths.HistoryFolderAgreement` and `Paths.HistoryFolderMismatch` |
| `Paths.TxtFolder` | tutor.py:16-18 | for a `.txt` name the evaluation folder is the name minus `.txt` plus `_evaluation`, except for all-dot stems (`.txt`), which keep the whole name |
| `Paths.RecordsChronological` | tutor.py:22-23 | one file's record names sort by name in the order of their whole-second timestamps; two timestamps that differ to the second give two different names |
| `Paths.RecordNameOrder` | tutor.py:23 | `<stem>_<stamp>.json` names with one stem compare, and are equal, exactly as their stamps do |
| `Paths.RecordPathLayout` | tutor.py:12-30 | the returned path is `My_Knowledge/evaluations/<stem>_evaluation/<stem>_<stamp>.json` |
| `Paths.RecordIsJson` | tutor.py:23 | every record name ends in `.json`, so the history listing filter keeps it |
| `Paths.HistoryFolderAgreement` | tutor.py:414 | the `split(".")[0]` folder equals the `splitext` folder of line 17 exactly when the first dot is also the last and is not at position 0 |
| `Paths.ListedFolder` | tutor.py:414 | when the first dot of a name follows a dot-free `x`, the history tab looks in `x_evaluation` |
| `Paths.SavedFolder` | tutor.py:16-18 | `<stem>.txt`, with a stem not starting with a dot, is saved under `<stem>_evaluation` |
| `Paths.HistoryFolderMismatch` | tutor.py:414 | for a dot-free `x` and any `y`, `x.y.txt` is listed from `x_evaluation` (which is `x.txt`'s folder) but saved into the different folder `x.y_evaluation` |
| `Listing.Insert` | tutor.py:202 | inserting a name into a sorted list keeps it sorted and adds exactly that name |
| `Listing.SortNames` | tutor.py:202 | `sort()` leaves the same names (as a multiset) in ascending order |
| `Listing.ListWithSuffix` | tutor.py:201-202 | the listing holds exactly the folder's entries with the suffix, each once, strictly ascending |
| `Listing.ListingDeterminedByNames` | tutor.py:201-202 | two strictly ascending listings of the same names are equal, whatever order the folder was read in |
| `Review.FocusNamed` | tutor.py:310-317 | looking up a focus label yields the focus with that label, and succeeds for each of the three labels |
| `Review.Prompt` | tutor.py:316-323 | the prompt starts with `Evaluate the following content with focus on <label>. <addition>` and ends with `Content:\n` followed by the text verbatim |
| `Review.PromptDetermines` | tutor.py:316-323 | two prompts are equal exactly when focus and text are both equal |
| `Review.Display` | tutor.py:381-400 | the panels shown for a decoded reply, top to bottom; what they are is stated by `Review.DisplayShows` and `Review.DisplayLayout` |
| `Review.DisplayShows` | tutor.py:381-400 | each section is shown exactly when its field is non-empty; the raw reply is shown exactly when all three are empty; something is always shown |
| `Review.DisplayLayout` | tutor.py:381-400 | only those four panels appear, each at most once, in the order right, wrong, recommendations, raw |
| `Workspace.Workspace.Create` | tutor.py:183-197 | an empty name, a name without `.txt` and an existing name are refused in that order, with nothing changed; otherwise exactly one new empty file is added |
| `Workspace.Workspace.Delete` | tutor.py:224-227 | removes exactly the named file and leaves every other file and the archive unchanged |
| `Workspace.Workspace.SaveChanges` | tutor.py:256-260 | writes only when the edited text differs from the loaded text; when the loaded text is the file's, the file then holds the edited text and nothing else changes |
| `Workspace.Workspace.ListKnowledge` | tutor.py:199-202 | the sidebar list is exactly the stored `.txt` names, each once, ascending |
| `Workspace.Workspace.SaveEvaluation` | tutor.py:10-30 | ensures the folder exists, puts the result under the record name (replacing a same-second record), returns the record's path, and changes nothing else |
| `Workspace.Workspace.ListHistory` | tutor.py:413-423 | ensures the file's evaluation folder exists and lists exactly its `.json` records, ascending; uses the save folder (see Findings) |
| `Workspace.Session.constructor` | tutor.py:343-344 | a session's log starts empty |
| `Workspace.Entry` | tutor.py:346-352 | the session-log entry: file, `LogStamp` of the instant, model key, focus label and reply text; `Workspace.HandleReply` states that exactly one is appended per reply |
| `Workspace.EvaluateContent` | tutor.py:309-403 | the endpoint receives the prompt for the focus and the edited text; a failed call changes nothing; any reply appends exactly one log entry and keeps earlier entries; an undecodable reply is not archived; a decoded one is archived under the record path and displayed |
| `Workspace.HandleReply` | tutor.py:340-403 | the same outcomes, log and archive changes for a given reply of the endpoint |

## Findings

| source | as written | input that shows it | evidently intended | confidence | as-written member | corrected member |
|---|---|---|---|---|---|---|
| tutor.py:414 | the history tab looks in `<text before the first dot>_evaluation` | `a.b.txt`: saved under `a.b_evaluation`, listed from `a_evaluation`, which holds the records of `a.txt` (lemma `Paths.HistoryFolderMismatch` with `x` = `a`, `y` = `b`) | the folder `save_evaluation_as_json` writes to, `<splitext stem>_evaluation` (tutor.py:17) | high; not executed | `Paths.HistoryFolderAsWritten` | `Workspace.Workspace.ListHistory` |

## Left out

- `datetime.now()`'s microseconds are dropped: `Timestamp` keeps whole seconds, which is all both `strftime` layouts print (tutor.py:22, 348). Two evaluations within one second share a stamp, so the chronological order of records holds only between different seconds.

- `Workspace.Delete`: the uncaught `FileNotFoundError` that `os.remove` raises for a missing name (tutor.py:225) becomes `removed == false` with nothing changed; the code only deletes names taken from the current listing.

- Page rendering is not modelled: Streamlit widgets, CSS, markdown, `st.rerun` and the simulated progress bar with `time.sleep` (tutor.py:33-149, 288-307). These are presentation and timing.
- The Gemini client (tutor.py:161, 327-338) is a foreign network API. It is the parameter `generate` of `EvaluateContent`, and its reply is a `Reply` value.
- Decoding the reply with `json.loads` and reading its three keys (tutor.py:372-375) are library calls. They appear as the `decoded` field of a reply, which is empty where decoding or a key lookup would raise.
- JSON formatting of records (`json.dump`, tutor.py:28) is left out. A record is stored as its three-field value.
- Reading a record back for display (`json.load`, tutor.py:443-452) and its decode error are left out. Reading back is the archive map lookup.
- `datetime.now()` is not modelled (tutor.py:22, 348). The two instants are parameters of `EvaluateContent`. They are separate because the code reads the clock twice.
- Years before 1000 are outside `Timestamp`, because `%Y` is not zero-padded for them on every platform.
- `os.stat` size and modification time (tutor.py:215-221, 433-439) are left out: they are OS and floating-point display.
- Real file I/O is a map update. `makedirs(exist_ok=True)` on a file's evaluation folder becomes "add the key if missing".
- The `My_Knowledge/evaluations` root itself (tutor.py:14) is not tracked apart from its folders.
- Paths and names are POSIX and case-sensitive. On Windows `os.path.join` (tutor.py:13, 18, 24) joins with `\`, so the returned path differs from the one `RecordPathLayout` and `SaveEvaluation` state. On a case-insensitive volume `os.path.exists` (tutor.py:189) also finds a name that differs only in case, and the code then refuses it; `Create` compares names exactly and would create it.
- Knowledge file names are flat map keys. The model does not capture a name holding `/`, which the code would join into a subdirectory path.
- The `FileNotFoundError` branches of the two listings (tutor.py:203-205, 420-422) are left out. Both folders are created just before they are listed (tutor.py:171, 415).
- Reading the selected file into the editor (tutor.py:244-246) has no member of its own. The text read is the `loaded` argument of `SaveChanges`.
- Which file is selected, and the "no files" and "no selection" messages, are UI state.
- The placeholder API-key check (tutor.py:156-159) is configuration.
- Errors while writing a record, which the `except` at tutor.py:402-403 would catch after the log entry, are left out.
- The model selector's display names (tutor.py:263-276) are left out. Only the model key reaches the log.
- Python's `list.sort` works in place. `SortNames` returns the sorted list as a new value instead.
