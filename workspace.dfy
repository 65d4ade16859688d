/**
 * The application's state: the knowledge folder and the evaluation archive
 * on disk (`Workspace`), the per-session evaluation log (`Session`), and
 * the "Evaluate Content" action that ties them to the generation endpoint.
 */
module Workspace {
  import opened Wrappers
  import opened Strings
  import opened Timestamps
  import opened Paths
  import opened Listing
  import opened Review

  /** What the "Create New File" button reports. */
  datatype CreateResult = Created | MissingName | NotTxt | AlreadyExists

  /** The records of one evaluation folder: record file name to stored result. */
  type Folder = map<string, Evaluation>

  /** The records of a folder, or none when the folder does not exist yet. */
  function FolderOf(archive: map<string, Folder>, name: string): Folder {
    if name in archive then archive[name] else map[]
  }

  class Workspace {
    /** `My_Knowledge/`: file name to the file's text. */
    var knowledge: map<string, string>
    /** `My_Knowledge/evaluations/`: folder name to the records in it. */
    var archive: map<string, Folder>

    constructor (files: map<string, string>, folders: map<string, Folder>)
      ensures knowledge == files && archive == folders
    {
      knowledge := files;
      archive := folders;
    }

    /**
     * "Create New File": refuses an empty name, a name not ending in `.txt`
     * and a name already present, in that order, changing nothing; otherwise
     * adds the one new file, empty.
     */
    method Create(name: string) returns (result: CreateResult)
      modifies this
      ensures result == Created <==> name != "" && EndsWith(name, ".txt") && name !in old(knowledge)
      ensures name == "" ==> result == MissingName
      ensures name != "" && !EndsWith(name, ".txt") ==> result == NotTxt
      ensures name != "" && EndsWith(name, ".txt") && name in old(knowledge) ==> result == AlreadyExists
      ensures knowledge == if result == Created then old(knowledge)[name := ""] else old(knowledge)
      ensures archive == old(archive)
    {
      if name != "" {
        if !EndsWith(name, ".txt") {
          result := NotTxt;
        } else if name in knowledge {
          result := AlreadyExists;
        } else {
          knowledge := knowledge[name := ""];
          result := Created;
        }
      } else {
        result := MissingName;
      }
    }

    /** "Delete File": removes exactly that file; reports whether it was there. */
    method Delete(name: string) returns (removed: bool)
      modifies this
      ensures removed == (name in old(knowledge))
      ensures knowledge == old(knowledge) - {name}
      ensures archive == old(archive)
    {
      removed := name in knowledge;
      knowledge := knowledge - {name};
    }

    /**
     * "Save Changes": writes the edited text only when it differs from the
     * text loaded into the editor. When the loaded text is what the file
     * holds, the file holds the edited text afterwards either way.
     */
    method SaveChanges(name: string, loaded: string, edited: string) returns (written: bool)
      modifies this
      ensures written == (edited != loaded)
      ensures knowledge == if written then old(knowledge)[name := edited] else old(knowledge)
      ensures name in old(knowledge) && old(knowledge)[name] == loaded ==>
        knowledge == old(knowledge)[name := edited]
      ensures archive == old(archive)
    {
      written := edited != loaded;
      if written {
        knowledge := knowledge[name := edited];
      }
    }

    /** The sidebar's file list: the `.txt` files, each once, ascending. */
    method ListKnowledge() returns (files: seq<string>)
      ensures forall n :: n in files <==> n in knowledge && EndsWith(n, ".txt")
      ensures StrictlySorted(files)
    {
      files := ListWithSuffix(knowledge.Keys, ".txt");
    }

    /**
     * `save_evaluation_as_json`: makes sure the file's evaluation folder
     * exists, writes the result under `<stem>_<stamp>.json` in it (a record
     * from the same second is replaced) and returns the record's path.
     */
    method SaveEvaluation(fileName: string, summary: Evaluation, now: Timestamp) returns (path: string)
      modifies this
      ensures path == RecordPath(fileName, now)
      ensures archive == old(archive)[EvaluationFolderName(fileName) :=
        FolderOf(old(archive), EvaluationFolderName(fileName))[RecordName(fileName, now) := summary]]
      ensures knowledge == old(knowledge)
    {
      var folderName := EvaluationFolderName(fileName);
      if folderName !in archive {
        archive := archive[folderName := map[]];
      }
      var recordName := RecordName(fileName, now);
      archive := archive[folderName := archive[folderName][recordName := summary]];
      path := Join(Join(EVALUATIONS_FOLDER, folderName), recordName);
    }

    /**
     * The history tab's record list for a knowledge file: makes sure the
     * file's evaluation folder exists, then lists its `.json` records, each
     * once, ascending (which for one file's records is oldest first).
     */
    method ListHistory(fileName: string) returns (records: seq<string>)
      modifies this
      ensures archive == old(archive)[EvaluationFolderName(fileName) :=
        FolderOf(old(archive), EvaluationFolderName(fileName))]
      ensures forall n :: n in records <==>
        n in FolderOf(old(archive), EvaluationFolderName(fileName)) && EndsWith(n, ".json")
      ensures StrictlySorted(records)
      ensures knowledge == old(knowledge)
    {
      var folderName := EvaluationFolderName(fileName);
      if folderName !in archive {
        archive := archive[folderName := map[]];
      }
      records := ListWithSuffix(archive[folderName].Keys, ".json");
    }
  }

  /** One entry of the session's evaluation log. */
  datatype HistoryEntry = HistoryEntry(file: string, timestamp: string, model: string, focus: string, evaluation: string)

  /** The log entry for a reply `text` to a request about `fileName`. */
  function Entry(fileName: string, at: Timestamp, model: ModelId, focus: Focus, text: string): HistoryEntry {
    HistoryEntry(fileName, LogStamp(at), model.Name(), Label(focus), text)
  }

  /** `st.session_state`: the evaluations made in this session, oldest first. */
  class Session {
    var history: seq<HistoryEntry>

    constructor ()
      ensures history == []
    {
      history := [];
    }
  }

  /** What the endpoint did with the prompt: failed, or replied with text that may decode. */
  datatype Reply = CallFailed(message: string) | Replied(text: string, decoded: Option<Evaluation>)

  /** What "Evaluate Content" ends with on the page. */
  datatype EvaluationOutcome =
    | UpstreamError(message: string)
    | MalformedResponse(raw: string)
    | Shown(panels: seq<Panel>, path: string)

  /**
   * "Evaluate Content" for the selected file: sends the prompt for the
   * edited text to `generate` and hands its answer to `HandleReply`.
   */
  method EvaluateContent(
    workspace: Workspace, session: Session, fileName: string, edited: string, model: ModelId, focus: Focus,
    generate: (ModelId, string) -> Reply, loggedAt: Timestamp, savedAt: Timestamp)
    returns (outcome: EvaluationOutcome)
    modifies workspace, session
    ensures match generate(model, Prompt(focus, edited))
      case CallFailed(message) =>
        && outcome == UpstreamError(message)
        && session.history == old(session.history)
        && workspace.archive == old(workspace.archive)
      case Replied(text, None) =>
        && outcome == MalformedResponse(text)
        && session.history == old(session.history) + [Entry(fileName, loggedAt, model, focus, text)]
        && workspace.archive == old(workspace.archive)
      case Replied(text, Some(result)) =>
        && outcome == Shown(Display(result, text), RecordPath(fileName, savedAt))
        && session.history == old(session.history) + [Entry(fileName, loggedAt, model, focus, text)]
        && workspace.archive == old(workspace.archive)[EvaluationFolderName(fileName) :=
          FolderOf(old(workspace.archive), EvaluationFolderName(fileName))[RecordName(fileName, savedAt) := result]]
    ensures workspace.knowledge == old(workspace.knowledge)
  {
    var reply := generate(model, Prompt(focus, edited));
    outcome := HandleReply(workspace, session, fileName, model, focus, reply, loggedAt, savedAt);
  }

  /**
   * What "Evaluate Content" does with the endpoint's answer. A failed call
   * changes nothing. A reply is logged in the session first; a reply that
   * does not decode then ends the action, and one that does is archived
   * and displayed.
   */
  method HandleReply(
    workspace: Workspace, session: Session, fileName: string, model: ModelId, focus: Focus,
    reply: Reply, loggedAt: Timestamp, savedAt: Timestamp)
    returns (outcome: EvaluationOutcome)
    modifies workspace, session
    ensures match reply
      case CallFailed(message) =>
        && outcome == UpstreamError(message)
        && session.history == old(session.history)
        && workspace.archive == old(workspace.archive)
      case Replied(text, None) =>
        && outcome == MalformedResponse(text)
        && session.history == old(session.history) + [Entry(fileName, loggedAt, model, focus, text)]
        && workspace.archive == old(workspace.archive)
      case Replied(text, Some(result)) =>
        && outcome == Shown(Display(result, text), RecordPath(fileName, savedAt))
        && session.history == old(session.history) + [Entry(fileName, loggedAt, model, focus, text)]
        && workspace.archive == old(workspace.archive)[EvaluationFolderName(fileName) :=
          FolderOf(old(workspace.archive), EvaluationFolderName(fileName))[RecordName(fileName, savedAt) := result]]
    ensures workspace.knowledge == old(workspace.knowledge)
  {
    match reply
    case CallFailed(message) =>
      outcome := UpstreamError(message);
    case Replied(text, decoded) =>
      session.history := session.history + [Entry(fileName, loggedAt, model, focus, text)];
      match decoded
      case None =>
        outcome := MalformedResponse(text);
      case Some(result) =>
        var path := workspace.SaveEvaluation(fileName, result, savedAt);
        outcome := Shown(Display(result, text), path);
  }

  /**
   * Walkthrough, for any `.txt` name and text: create a note, fail to
   * create it again, save its text and find it alone in the sidebar list.
   */
  method NoteWalkthrough(name: string, text: string)
    requires EndsWith(name, ".txt")
  {
    var workspace := new Workspace(map[], map[]);
    var created := workspace.Create(name);
    assert created == Created;
    var again := workspace.Create(name);
    assert again == AlreadyExists;

    var written := workspace.SaveChanges(name, "", text);
    assert workspace.knowledge == map[name := text];
    var files := workspace.ListKnowledge();
    ListingDeterminedByNames(files, [name]);
    assert files == [name];
  }

  /**
   * Walkthrough: a reply to a saved note decodes with two non-empty
   * sections; both are shown, the reply is logged and one record is
   * archived.
   */
  method EvaluationWalkthrough(
    name: string, text: string, right: string, advice: string, raw: string, focus: Focus,
    loggedAt: Timestamp, savedAt: Timestamp)
    requires right != "" && advice != ""
  {
    var workspace := new Workspace(map[name := text], map[]);
    var session := new Session();
    var result := Evaluation(right, "", advice);
    var outcome := HandleReply(workspace, session, name, Flash, focus, Replied(raw, Some(result)), loggedAt, savedAt);
    assert outcome.panels == [Right(right), Recommend(advice)];
    assert session.history == [Entry(name, loggedAt, Flash, focus, raw)];
    assert workspace.knowledge == map[name := text];
    assert workspace.archive == map[EvaluationFolderName(name) := map[RecordName(name, savedAt) := result]];
  }

  /**
   * The history tab after one saved evaluation lists exactly that record.
   */
  method HistoryWalkthrough(name: string, text: string, result: Evaluation, savedAt: Timestamp)
  {
    var workspace := new Workspace(map[name := text], map[]);
    var path := workspace.SaveEvaluation(name, result, savedAt);
    var records := workspace.ListHistory(name);
    var record := RecordName(name, savedAt);
    RecordIsJson(name, savedAt);
    ListingDeterminedByNames(records, [record]);
    assert records == [record];
  }
}
