/**
 * How the application derives paths and names: `os.path.join`,
 * `os.path.splitext`, the evaluation folder and record names written by
 * `save_evaluation_as_json`, and the folder the history tab looks in.
 */
module Paths {
  import opened Strings
  import opened Timestamps

  const KNOWLEDGE_FOLDER := "My_Knowledge"
  const EVALUATIONS_FOLDER := Join(KNOWLEDGE_FOLDER, "evaluations")

  /** `posixpath.join(a, b)`: an absolute `b` replaces `a`. */
  function Join(a: string, b: string): (r: string)
    ensures StartsWith(b, "/") ==> r == b
    ensures !StartsWith(b, "/") ==> EndsWith(r, b) && StartsWith(r, a)
    ensures !StartsWith(b, "/") && a != [] && a[|a| - 1] != '/' ==> r == a + "/" + b
    ensures !StartsWith(b, "/") && (a == [] || a[|a| - 1] == '/') ==> r == a + b
  {
    if StartsWith(b, "/") then b
    else if a == [] || a[|a| - 1] == '/' then a + b
    else a + "/" + b
  }

  /** Every character of `p` from `lo` up to `hi` is a dot. */
  predicate DotsBetween(p: string, lo: int, hi: int)
    requires 0 <= lo && hi <= |p|
  {
    forall k :: lo <= k < hi ==> p[k] == '.'
  }

  /**
   * `posixpath.splitext(p)`: the extension starts at the last dot of the
   * last path component, unless everything before that dot in the component
   * is dots (a leading-dot name has no extension).
   */
  function SplitExt(p: string): (r: (string, string))
    ensures r.0 + r.1 == p
  {
    var sep := LastIndex(p, '/');
    var dot := LastIndex(p, '.');
    if sep < dot && !DotsBetween(p, sep + 1, dot) then (p[..dot], p[dot..]) else (p, "")
  }

  /**
   * The extension is empty or starts with a dot; it holds no other dot and
   * no separator, so it never reaches into a directory part.
   */
  lemma ExtensionShape(p: string)
    ensures SplitExt(p).1 != [] ==> SplitExt(p).1[0] == '.'
    ensures forall k :: 0 < k < |SplitExt(p).1| ==> SplitExt(p).1[k] != '.'
    ensures forall k :: 0 <= k < |SplitExt(p).1| ==> SplitExt(p).1[k] != '/'
  {
    var sep := LastIndex(p, '/');
    var dot := LastIndex(p, '.');
    if sep < dot && !DotsBetween(p, sep + 1, dot) {
      assert SplitExt(p).1 == p[dot..];
    }
  }

  /** `os.path.splitext(file_name)[0]` */
  function Stem(fileName: string): string {
    SplitExt(fileName).0
  }

  /** The folder `save_evaluation_as_json` writes into: `<stem>_evaluation`. */
  function EvaluationFolderName(fileName: string): string {
    Stem(fileName) + "_evaluation"
  }

  /** The record file name: `<stem>_<YYYYMMDD_HHMMSS>.json`. */
  function RecordName(fileName: string, t: Timestamp): string {
    Stem(fileName) + ("_" + (Stamp(t) + ".json"))
  }

  /** The path `save_evaluation_as_json` writes to and returns. */
  function RecordPath(fileName: string, t: Timestamp): string {
    Join(Join(EVALUATIONS_FOLDER, EvaluationFolderName(fileName)), RecordName(fileName, t))
  }

  /** `file_name.split(".")[0]`: everything before the first dot. */
  function FirstSegment(p: string): string {
    var i := FirstIndex(p, '.');
    if i < 0 then p else p[..i]
  }

  /** The folder the history tab lists, as written: `<text before the first dot>_evaluation`. */
  function HistoryFolderAsWritten(fileName: string): string {
    FirstSegment(fileName) + "_evaluation"
  }

  /**
   * For a `.txt` name (no directory part) the evaluation folder is the name
   * without its final `.txt`, followed by `_evaluation`, unless everything
   * before that `.txt` is dots: such a name (".txt", "..txt") keeps its
   * `.txt` in the folder name.
   */
  lemma TxtFolder(fileName: string)
    requires EndsWith(fileName, ".txt") && '/' !in fileName
    ensures !DotsBetween(fileName, 0, |fileName| - 4) ==>
      EvaluationFolderName(fileName) == fileName[..|fileName| - 4] + "_evaluation"
    ensures DotsBetween(fileName, 0, |fileName| - 4) ==>
      EvaluationFolderName(fileName) == fileName + "_evaluation"
  {
    var n := |fileName|;
    assert fileName[n - 4..] == ".txt";
    assert fileName[n - 4] == '.';
    var dot := LastIndex(fileName, '.');
    assert dot == n - 4;
    assert LastIndex(fileName, '/') == -1;
  }

  /**
   * Records of one source file sort by name in the order they were taken,
   * and two timestamps that differ to the second give two different names.
   */
  lemma RecordsChronological(fileName: string, a: Timestamp, b: Timestamp)
    ensures Below(RecordName(fileName, a), RecordName(fileName, b)) <==> Earlier(a, b)
    ensures RecordName(fileName, a) == RecordName(fileName, b) <==> a == b
  {
    StampOrder(a, b);
    RecordNameOrder(Stem(fileName), Stamp(a), Stamp(b));
  }

  lemma RecordNameOrder(stem: string, x: string, y: string)
    requires |x| == |y|
    ensures Below(stem + ("_" + (x + ".json")), stem + ("_" + (y + ".json"))) <==> Below(x, y)
    ensures stem + ("_" + (x + ".json")) == stem + ("_" + (y + ".json")) <==> x == y
  {
    SharedPrefix(stem, "_" + (x + ".json"), "_" + (y + ".json"));
    SharedPrefix("_", x + ".json", y + ".json");
    SharedSuffix(x, y, ".json");
  }

  /**
   * For a name without a directory part, the record is written to
   * `My_Knowledge/evaluations/<stem>_evaluation/<stem>_<stamp>.json`.
   */
  lemma RecordPathLayout(fileName: string, t: Timestamp)
    requires '/' !in fileName
    ensures RecordPath(fileName, t)
      == EVALUATIONS_FOLDER + "/" + EvaluationFolderName(fileName) + "/" + RecordName(fileName, t)
  {
    var stem := Stem(fileName);
    assert stem == fileName[..|stem|];
    assert '/' !in stem;
    var folder := EvaluationFolderName(fileName);
    assert !StartsWith(folder, "/") by {
      if stem == [] { assert folder[0] == '_'; } else { assert folder[0] == stem[0]; }
    }
    var record := RecordName(fileName, t);
    assert !StartsWith(record, "/") by {
      if stem == [] { assert record[0] == '_'; } else { assert record[0] == stem[0]; }
    }
    var dir := Join(EVALUATIONS_FOLDER, folder);
    assert dir == EVALUATIONS_FOLDER + "/" + folder;
    assert dir[|dir| - 1] == 'n';
  }

  /** Every record name carries the suffix the history tab lists. */
  lemma RecordIsJson(fileName: string, t: Timestamp)
    ensures EndsWith(RecordName(fileName, t), ".json")
  {
    var r := RecordName(fileName, t);
    assert r == (Stem(fileName) + "_" + Stamp(t)) + ".json";
    assert r[|r| - 5..] == ".json";
  }

  /**
   * The history tab looks in the folder the records were saved to exactly
   * when the name has at most one dot and does not start with one.
   */
  lemma HistoryFolderAgreement(fileName: string)
    requires '/' !in fileName
    ensures HistoryFolderAsWritten(fileName) == EvaluationFolderName(fileName)
      <==> FirstIndex(fileName, '.') == LastIndex(fileName, '.') && FirstIndex(fileName, '.') != 0
  {
    var first, last := FirstIndex(fileName, '.'), LastIndex(fileName, '.');
    assert LastIndex(fileName, '/') == -1;
    var agree := FirstSegment(fileName) == Stem(fileName);
    assert HistoryFolderAsWritten(fileName) == EvaluationFolderName(fileName) <==> agree by {
      if HistoryFolderAsWritten(fileName) == EvaluationFolderName(fileName) {
        LexPair(FirstSegment(fileName), "_evaluation", Stem(fileName), "_evaluation")
          by { assert |FirstSegment(fileName)| == |Stem(fileName)|; }
      }
    }
    if first >= 0 {
      assert first <= last;
      if !DotsBetween(fileName, 0, last) {
        assert Stem(fileName) == fileName[..last];
        if first == 0 {
          var k :| 0 <= k < last && fileName[k] != '.';
        }
      } else {
        assert Stem(fileName) == fileName;
        assert last > 0 ==> fileName[0] == '.';
      }
    }
  }

  /**
   * A name with a second dot, such as "a.b.txt", is listed under the folder
   * of "a.txt" ("a_evaluation") but saved under "a.b_evaluation".
   */
  lemma HistoryFolderMismatch(x: string, y: string)
    requires x != [] && '.' !in x && '/' !in x + y
    ensures HistoryFolderAsWritten(x + "." + y + ".txt") == x + "_evaluation"
    ensures EvaluationFolderName(x + "." + y + ".txt") == x + "." + y + "_evaluation"
    ensures HistoryFolderAsWritten(x + "." + y + ".txt") != EvaluationFolderName(x + "." + y + ".txt")
    ensures HistoryFolderAsWritten(x + "." + y + ".txt") == EvaluationFolderName(x + ".txt")
  {
    var name := x + "." + y + ".txt";
    ListedFolder(x, y + ".txt");
    assert name == x + "." + (y + ".txt");
    SavedFolder(name, x + "." + y);
    SavedFolder(x + ".txt", x);
    assert (x + "_evaluation")[|x|] != (x + "." + y + "_evaluation")[|x|];
  }

  lemma ListedFolder(x: string, rest: string)
    requires '.' !in x
    ensures HistoryFolderAsWritten(x + "." + rest) == x + "_evaluation"
  {
    var s := x + "." + rest;
    assert s[|x|] == '.';
    assert forall k :: 0 <= k < |x| ==> s[k] == x[k];
    assert s[..|x|] == x;
  }

  lemma SavedFolder(fileName: string, stem: string)
    requires fileName == stem + ".txt" && '/' !in fileName
    requires stem != [] && stem[0] != '.'
    ensures EvaluationFolderName(fileName) == stem + "_evaluation"
  {
    assert EndsWith(fileName, ".txt");
    TxtFolder(fileName);
    assert fileName[0] == stem[0];
    assert fileName[..|fileName| - 4] == stem;
  }
}
