/** Type-to-folder resolution, shared by the three copies of `get_folder_name`
    (src/cli.py, src/core/organizer.py and main.py, which are identical apart from logging).
    The `file_type` object of a mapping configuration is kept as its ordered list of
    (key, folder) pairs, so that "first key in declared order" can be stated. */
module FolderMapping {

  datatype Option<T> = None | Some(value: T)

  /** `{"file_type": {key: folder, ...}, "default": folder}` */
  datatype MappingTable = MappingTable(fileType: seq<(string, string)>, default: string)

  /** The keys of a JSON object (a Python dict) are distinct. */
  ghost predicate UniqueKeys(entries: seq<(string, string)>) {
    forall i, j :: 0 <= i < j < |entries| ==> entries[i].0 != entries[j].0
  }

  /** `config["file_type"][file_type]` when `file_type in config["file_type"]`. */
  function ExactFolder(entries: seq<(string, string)>, t: string): (r: Option<string>)
    ensures r.None? ==> forall i :: 0 <= i < |entries| ==> entries[i].0 != t
  {
    if entries == [] then None
    else if entries[0].0 == t then Some(entries[0].1)
    else ExactFolder(entries[1..], t)
  }

  /** The folder of the first key, in declared order, that `t` starts with. */
  function PrefixFolder(entries: seq<(string, string)>, t: string): (r: Option<string>)
    ensures r.None? ==> forall i :: 0 <= i < |entries| ==> !(entries[i].0 <= t)
  {
    if entries == [] then None
    else if entries[0].0 <= t then Some(entries[0].1)
    else PrefixFolder(entries[1..], t)
  }

  /** `get_folder_name(file_type, config)`: exact key, else first prefix key, else default. */
  function Resolve(table: MappingTable, t: string): (r: string)
    ensures r == table.default || exists i :: 0 <= i < |table.fileType| && table.fileType[i].1 == r
  {
    match ExactFolder(table.fileType, t)
    case Some(f) =>
      ExactFolderIsEntry(table.fileType, t);
      f
    case None =>
      match PrefixFolder(table.fileType, t)
      case Some(f) =>
        PrefixFolderIsEntry(table.fileType, t);
        f
      case None => table.default
  }

  lemma {:induction false} ExactFolderIsEntry(entries: seq<(string, string)>, t: string)
    requires ExactFolder(entries, t).Some?
    ensures exists i :: 0 <= i < |entries| && entries[i] == (t, ExactFolder(entries, t).value)
  {
    if entries[0].0 == t {
      assert entries[0] == (t, ExactFolder(entries, t).value);
    } else {
      ExactFolderIsEntry(entries[1..], t);
      var i :| 0 <= i < |entries[1..]| && entries[1..][i] == (t, ExactFolder(entries[1..], t).value);
      assert entries[i + 1] == entries[1..][i];
    }
  }

  lemma {:induction false} PrefixFolderIsEntry(entries: seq<(string, string)>, t: string)
    requires PrefixFolder(entries, t).Some?
    ensures exists i :: 0 <= i < |entries| && entries[i].0 <= t && entries[i].1 == PrefixFolder(entries, t).value
  {
    if !(entries[0].0 <= t) {
      PrefixFolderIsEntry(entries[1..], t);
      var i :| 0 <= i < |entries[1..]| && entries[1..][i].0 <= t && entries[1..][i].1 == PrefixFolder(entries[1..], t).value;
      assert entries[i + 1] == entries[1..][i];
    }
  }

  /** An exact key finds its own folder, whatever keys before it are prefixes of `t`. */
  lemma {:induction false} ResolveExact(table: MappingTable, t: string, i: nat)
    requires UniqueKeys(table.fileType)
    requires i < |table.fileType| && table.fileType[i].0 == t
    ensures Resolve(table, t) == table.fileType[i].1
  {
    ExactFolderAt(table.fileType, t, i);
  }

  lemma {:induction false} ExactFolderAt(entries: seq<(string, string)>, t: string, i: nat)
    requires i < |entries| && entries[i].0 == t
    requires forall j :: 0 <= j < i ==> entries[j].0 != t
    ensures ExactFolder(entries, t) == Some(entries[i].1)
  {
    if i > 0 {
      assert entries[0].0 != t;
      assert forall j :: 0 <= j < i - 1 ==> entries[1..][j] == entries[j + 1];
      ExactFolderAt(entries[1..], t, i - 1);
    }
  }

  /** With no exact key, the first key in table order that `t` starts with wins, even when
      a later key is a longer prefix of `t`. */
  lemma {:induction false} ResolveFirstPrefix(table: MappingTable, t: string, i: nat)
    requires forall j :: 0 <= j < |table.fileType| ==> table.fileType[j].0 != t
    requires i < |table.fileType| && table.fileType[i].0 <= t
    requires forall j :: 0 <= j < i ==> !(table.fileType[j].0 <= t)
    ensures Resolve(table, t) == table.fileType[i].1
  {
    NoKeyNone(table.fileType, t);
    PrefixFolderAt(table.fileType, t, i);
  }

  lemma {:induction false} PrefixFolderAt(entries: seq<(string, string)>, t: string, i: nat)
    requires i < |entries| && entries[i].0 <= t
    requires forall j :: 0 <= j < i ==> !(entries[j].0 <= t)
    ensures PrefixFolder(entries, t) == Some(entries[i].1)
  {
    if i > 0 {
      assert !(entries[0].0 <= t);
      assert forall j :: 0 <= j < i - 1 ==> entries[1..][j] == entries[j + 1];
      PrefixFolderAt(entries[1..], t, i - 1);
    }
  }

  /** A type that no key equals or prefixes goes to the default folder. */
  lemma ResolveDefault(table: MappingTable, t: string)
    requires forall j :: 0 <= j < |table.fileType| ==> !(table.fileType[j].0 <= t)
    ensures Resolve(table, t) == table.default
  {
    assert forall j :: 0 <= j < |table.fileType| ==> table.fileType[j].0 != t;
    NoKeyNone(table.fileType, t);
    NoPrefixNone(table.fileType, t);
  }

  lemma {:induction false} NoKeyNone(entries: seq<(string, string)>, t: string)
    requires forall j :: 0 <= j < |entries| ==> entries[j].0 != t
    ensures ExactFolder(entries, t).None?
  {
    if entries != [] {
      assert forall j :: 0 <= j < |entries| - 1 ==> entries[1..][j] == entries[j + 1];
      NoKeyNone(entries[1..], t);
    }
  }

  lemma {:induction false} NoPrefixNone(entries: seq<(string, string)>, t: string)
    requires forall j :: 0 <= j < |entries| ==> !(entries[j].0 <= t)
    ensures PrefixFolder(entries, t).None?
  {
    if entries != [] {
      assert forall j :: 0 <= j < |entries| - 1 ==> entries[1..][j] == entries[j + 1];
      NoPrefixNone(entries[1..], t);
    }
  }

  /** First match, not longest match: with "text/" declared before "text/x-", a
      "text/x-python" file goes to the folder of "text/". */
  lemma FirstMatchNotLongest()
    ensures Resolve(MappingTable([("text/", "Text"), ("text/x-", "Scripts")], "Other"), "text/x-python") == "Text"
  {
    var table := MappingTable([("text/", "Text"), ("text/x-", "Scripts")], "Other");
    ResolveFirstPrefix(table, "text/x-python", 0);
  }

  /** The table built into src/cli.py, used when no usable configuration file is given. */
  const DefaultTable: MappingTable := MappingTable(
    [ ("image/", "Images"),
      ("video/", "Videos"),
      ("audio/", "Audio"),
      ("text/plain", "Text_Files"),
      ("text/csv", "CSV_Files"),
      ("text/html", "HTML_Files"),
      ("text/css", "CSS_Files"),
      ("text/javascript", "JavaScript"),
      ("application/json", "JSON_Files"),
      ("application/xml", "XML_Files"),
      ("application/pdf", "PDFs"),
      ("application/msword", "Word_Documents"),
      ("application/vnd.openxmlformats-officedocument.wordprocessingml.document", "Word_Documents"),
      ("application/vnd.ms-excel", "Excel_Files"),
      ("application/vnd.openxmlformats-officedocument.spreadsheetml.sheet", "Excel_Files"),
      ("application/vnd.ms-excel.sheet.macroenabled.12", "Excel_Files"),
      ("application/vnd.ms-powerpoint", "PowerPoint_Files"),
      ("application/vnd.openxmlformats-officedocument.presentationml.presentation", "PowerPoint_Files"),
      ("application/vnd.oasis.opendocument.text", "OpenDocument_Text"),
      ("application/vnd.oasis.opendocument.spreadsheet", "OpenDocument_Spreadsheet"),
      ("application/vnd.oasis.opendocument.presentation", "OpenDocument_Presentation"),
      ("application/zip", "Archives"),
      ("application/x-rar-compressed", "Archives"),
      ("application/x-7z-compressed", "Archives"),
      ("application/x-tar", "Archives"),
      ("application/gzip", "Archives"),
      ("application/x-bzip2", "Archives"),
      ("text/x-python", "Code_Files"),
      ("application/x-python", "Code_Files"),
      ("application/javascript", "Code_Files"),
      ("text/x-java-source", "Code_Files"),
      ("application/java-archive", "Code_Files"),
      ("application/x-sh", "Scripts"),
      ("application/x-csh", "Scripts"),
      ("text/x-php", "Code_Files"),
      ("application/x-ruby", "Code_Files"),
      ("application/x-perl", "Code_Files"),
      ("application/x-executable", "Executables"),
      ("application/x-msdownload", "Executables"),
      ("application/octet-stream", "Binary_Files"),
      ("application/vnd.android.package-archive", "Android_APK"),
      ("application/x-dosexec", "Windows_Executables"),
      ("font/", "Fonts") ],
    "Other_Files")

  /** A type matched by the first, prefix, key of the built-in table. */
  lemma DefaultTableImage()
    ensures Resolve(DefaultTable, "image/png") == "Images"
  {
    ResolveFirstPrefix(DefaultTable, "image/png", 0);
  }

  /** An exact key of the built-in table. */
  lemma DefaultTablePdf()
    ensures Resolve(DefaultTable, "application/pdf") == "PDFs"
  {
    ExactFolderAt(DefaultTable.fileType, "application/pdf", 10);
  }
}
