/**
 * The fake LMS file store: a fixed table from directory paths to the names
 * stored there, and `listFiles`, which turns one directory's names into
 * listing entries with directories first and names in ascending order.
 */
module FakeLmsStorage {
  import opened Wrappers
  import opened Strings
  import opened Ordering
  import JsSemantics

  const FolderIcon: string := "folder-solid.svg"
  const FileIcon: string := "file-alt-regular.svg"
  const PdfFileIcon: string := "file-pdf-solid.svg"
  const IconPrefix: string := "/assets/icons/mime/"

  /** The URL an icon file is served from. */
  function IconUrl(icon: string): (url: string)
    ensures |url| == |IconPrefix| + |icon|
    ensures url[..|IconPrefix|] == IconPrefix && url[|IconPrefix|..] == icon
  {
    IconPrefix + icon
  }

  /** Two icons share a URL exactly when they are the same icon. */
  lemma IconUrlInjective(a: string, b: string)
    ensures IconUrl(a) == IconUrl(b) <==> a == b
  {
    if IconUrl(a) == IconUrl(b) {
      assert a == IconUrl(a)[|IconPrefix|..];
    }
  }

  datatype EntryType = Directory | File

  /**
   * One listing entry. Only files carry a modification time (the listing's
   * own clock reading, an ISO-8601 string).
   */
  datatype Entry = Entry(kind: EntryType, name: string, icon: string, lastModified: Option<string>)

  /** A stored name ending in `/` denotes a directory. */
  predicate IsDirectoryName(name: string) {
    EndsWith(name, "/")
  }

  /** The entry a stored name is listed as, with `now` as its modification time. */
  function ToEntry(name: string, now: string): (e: Entry)
    ensures e.kind == Directory <==> IsDirectoryName(name)
    ensures e.kind == Directory ==>
      e.name + "/" == name && e.icon == IconUrl(FolderIcon) && e.lastModified == None
    ensures e.kind == File ==>
      && e.name == name
      && e.lastModified == Some(now)
      && (e.icon == IconUrl(PdfFileIcon) <==> EndsWith(name, ".pdf"))
      && (e.icon == IconUrl(FileIcon) <==> !EndsWith(name, ".pdf"))
  {
    IconUrlInjective(PdfFileIcon, FileIcon);
    if IsDirectoryName(name) then
      assert name == name[..|name| - 1] + "/";
      Entry(Directory, name[..|name| - 1], IconUrl(FolderIcon), None)
    else
      var icon := if EndsWith(name, ".pdf") then PdfFileIcon else FileIcon;
      Entry(File, name, IconUrl(icon), Some(now))
  }

  /** The name an entry was stored under: directories get their `/` back. */
  function StoredName(e: Entry): string {
    if e.kind == Directory then e.name + "/" else e.name
  }

  /** The stored names of a listing, in listing order. */
  function StoredNames(entries: seq<Entry>): (names: seq<string>)
    ensures |names| == |entries|
    ensures forall i :: 0 <= i < |entries| ==> names[i] == StoredName(entries[i])
  {
    seq(|entries|, i requires 0 <= i < |entries| => StoredName(entries[i]))
  }

  /** Listing a name and recovering its stored form is the identity. */
  lemma StoredNameRoundTrip(name: string, now: string)
    ensures StoredName(ToEntry(name, now)) == name
  {
  }

  /**
   * The listing comparator: a directory before a file, otherwise the
   * locale order `localeLe` on the stored names (trailing `/` included).
   */
  predicate ComesBefore(localeLe: (string, string) -> bool, a: string, b: string) {
    if IsDirectoryName(a) != IsDirectoryName(b) then IsDirectoryName(a) else localeLe(a, b)
  }

  function NameOrder(localeLe: (string, string) -> bool): (string, string) -> bool {
    (a: string, b: string) => ComesBefore(localeLe, a, b)
  }

  /** The listing comparator is consistent whenever the locale order is. */
  lemma NameOrderConsistent(localeLe: (string, string) -> bool)
    requires TotalPreorder(localeLe)
    ensures TotalPreorder(NameOrder(localeLe))
  {
    var le := NameOrder(localeLe);
    forall a, b, c | le(a, b) && le(b, c) ensures le(a, c) {
      assert ComesBefore(localeLe, a, b) && ComesBefore(localeLe, b, c);
    }
  }

  /** One directory's listing: its names sorted by the listing comparator, each made an entry. */
  function ListDirectory(names: seq<string>, localeLe: (string, string) -> bool, now: string): (r: seq<Entry>)
    ensures |r| == |names|
  {
    var sorted := Sort(names, NameOrder(localeLe));
    assert |sorted| == |multiset(sorted)| == |names|;
    seq(|sorted|, i requires 0 <= i < |sorted| => ToEntry(sorted[i], now))
  }

  /** The entries' stored names are exactly the sorted names. */
  lemma ListDirectoryNames(names: seq<string>, localeLe: (string, string) -> bool, now: string)
    ensures StoredNames(ListDirectory(names, localeLe, now)) == Sort(names, NameOrder(localeLe))
  {
    var r := ListDirectory(names, localeLe, now);
    var sorted := Sort(names, NameOrder(localeLe));
    forall i | 0 <= i < |r| ensures StoredNames(r)[i] == sorted[i] {
      StoredNameRoundTrip(sorted[i], now);
    }
  }

  /** A listing has one entry per stored name: it is a permutation of them. */
  lemma ListingIsPermutation(names: seq<string>, localeLe: (string, string) -> bool, now: string)
    ensures multiset(StoredNames(ListDirectory(names, localeLe, now))) == multiset(names)
  {
    ListDirectoryNames(names, localeLe, now);
  }

  /**
   * Under a consistent locale order every directory entry precedes every
   * file entry, and within each group the stored names ascend.
   */
  lemma ListingOrdered(names: seq<string>, localeLe: (string, string) -> bool, now: string)
    requires TotalPreorder(localeLe)
    ensures var r := ListDirectory(names, localeLe, now);
      && (forall i, j :: 0 <= i < j < |r| && r[j].kind == Directory ==> r[i].kind == Directory)
      && (forall i, j :: 0 <= i < j < |r| && r[i].kind == r[j].kind ==>
            localeLe(StoredName(r[i]), StoredName(r[j])))
  {
    var r := ListDirectory(names, localeLe, now);
    var le := NameOrder(localeLe);
    var sorted := Sort(names, le);
    NameOrderConsistent(localeLe);
    SortSorted(names, le);
    ListDirectoryNames(names, localeLe, now);
    forall i, j | 0 <= i < j < |r|
      ensures r[j].kind == Directory ==> r[i].kind == Directory
      ensures r[i].kind == r[j].kind ==> localeLe(StoredName(r[i]), StoredName(r[j]))
    {
      assert StoredName(r[i]) == sorted[i] && StoredName(r[j]) == sorted[j];
      assert ComesBefore(localeLe, sorted[i], sorted[j]);
    }
  }

  /** The stored directory table. */
  const StoredFiles: map<string, seq<string>> := map[
    "/" := ["Tragedies/", "Comedies/", "Histories/", "Biography.htm", "Poems.htm", "Sonnets.pdf"],
    "/Tragedies" := [
      "Antony and Cleopatra", "Coriolanus", "Cymbeline", "Hamlet", "Julius Ceasar", "King Lear",
      "Macbeth", "Othello", "Romeo and Juliet", "Timon of Athens", "Titus Andronicus",
      "Troilus and Cressida"],
    "/Comedies" := [
      "All's well that ends well.pdf", "As you like it.pdf", "Comedy of errors.docx",
      "Love's labour's lost.htm", "Measure for measure", "Merchant of Venice.pdf",
      "Merry wives of Windsor.pdf", "Midsummer night's dream.pdf", "Much ado about nothing",
      "Taming of the shrew", "Tempest", "Twelfth night", "Two gentlemen of Verona", "Winter's tale"],
    "/Histories" := [
      "Henry IV, Part I", "Henry IV, Part II", "Henry V", "Henry VI, Part I", "Henry VI, Part II",
      "Henry VI, Part III", "Henry VIII", "King John", "Pericles", "Richard I", "Richard II"]
  ]

  /**
   * `listFiles(path)` with the table lookup corrected to a plain dictionary:
   * a path that is not a stored directory lists nothing.
   */
  function ListFiles(path: string, localeLe: (string, string) -> bool, now: string): (r: seq<Entry>)
    ensures path !in StoredFiles ==> r == []
    ensures path in StoredFiles ==> |r| == |StoredFiles[path]|
  {
    if path in StoredFiles then ListDirectory(StoredFiles[path], localeLe, now) else []
  }

  /** A failure thrown by the JavaScript runtime. */
  datatype JsError = TypeError

  /**
   * `listFiles(path)` as written: `files[path]` also answers the names every
   * object inherits, and calling `.sort` on those throws.
   */
  function ListFilesAsWritten(path: string, localeLe: (string, string) -> bool, now: string): (r: Result<seq<Entry>, JsError>)
    ensures path in StoredFiles ==> r == Success(ListFiles(path, localeLe, now))
    ensures path !in StoredFiles ==> (r.Failure? <==> path in JsSemantics.PrototypeKeys)
  {
    if path in StoredFiles then Success(ListDirectory(StoredFiles[path], localeLe, now))
    else if path in JsSemantics.PrototypeKeys then Failure(TypeError)
    else Success([])
  }

  /** A request for the directory "toString" throws instead of listing nothing. */
  lemma PrototypePathThrows(localeLe: (string, string) -> bool, now: string)
    ensures "toString" !in StoredFiles
    ensures ListFilesAsWritten("toString", localeLe, now).Failure?
    ensures ListFiles("toString", localeLe, now) == []
  {
  }
}
