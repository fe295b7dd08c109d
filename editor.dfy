/**
 * The activity's document state and the three operations on it that carry
 * logic: `load()`, `save()` and `showOpenOrLoad()`, with the license text
 * read by `showLicense()`. The file system is a `Disk` object mapping paths
 * to file contents; I/O failures are parameters.
 */
module QuteEditor {
  import opened Wrappers
  import opened LineEndings
  import opened LineReader
  import opened RoundTrip
  import opened Uris

  /** What `showOpenOrLoad()` does: the open dialog, a load, or a `NullPointerException` from the guard. */
  datatype Opening = OpenDialog | Loaded | Crashed

  /** The files on the device, by path (`new File(path)`); a path not in `files` does not exist. */
  class Disk {
    var files: map<string, string>

    constructor (files: map<string, string>)
      ensures this.files == files
    {
      this.files := files;
    }
  }

  /** The fields of the activity that the document operations read and write. */
  class Editor {
    /** `mUri`: the document's location, `None` for `null`. */
    var uri: Option<Uri>
    /** The contents of the `mText` view. */
    var text: string
    /** `mShowingLicense`: the license dialog is up, so `onResume` does not load. */
    var showingLicense: bool

    constructor (uri: Option<Uri>)
      ensures this.uri == uri && text == [] && !showingLicense
    {
      this.uri := uri;
      text := [];
      showingLicense := false;
    }

    /**
     * `load()`: the editor gets the file's lines, each followed by `\n`; a
     * file that does not exist gives `""`; a read that throws leaves what was
     * built before the exception. `load()` does not check the URI itself and
     * dereferences `mUri.getPath()`, so its callers need a URI with a path.
     */
    method Load(disk: Disk, fault: ReadFault)
      requires uri.Some? && uri.value.path.Some?
      modifies this`text
      ensures var path := uri.value.path.value;
        text == if path in disk.files then Accumulated(disk.files[path], fault) else []
    {
      var path := uri.value.path.value;
      var content := "";
      if path in disk.files {
        var complete;
        content, complete := ReadAll(disk.files[path], fault);
      }
      text := content;
    }

    /**
     * `save()`: the text is transformed for EOL mode `mode`, then, only if
     * the URI is sane, written to its path. A missing file is created first
     * (`createOk` says whether `createNewFile` succeeds; its failure is
     * swallowed), then `writeOk` says whether the write succeeds. A failed
     * write leaves the file as it was before the write. A URI whose scheme
     * or path is `null` makes the guard throw (`crashed`), and nothing is
     * written.
     */
    method Save(disk: Disk, mode: int, createOk: bool, writeOk: bool) returns (crashed: bool)
      modifies disk
      ensures crashed <==> UriIsSaneAsWritten(uri).None?
      ensures !UriIsSane(uri) ==> disk.files == old(disk.files)
      ensures UriIsSane(uri) && writeOk ==>
        disk.files == old(disk.files)[uri.value.path.value := Transform(text, mode)]
      ensures UriIsSane(uri) && !writeOk ==>
        var path := uri.value.path.value;
        disk.files == if path in old(disk.files) || !createOk then old(disk.files) else old(disk.files)[path := []]
    {
      var content := text;
      if mode == EolR {
        content := ReplaceLf(content, "\r");
      } else if mode == EolRN {
        content := ReplaceLf(content, "\r\n");
      }
      match UriIsSaneAsWritten(uri)
      case None =>
        crashed := true;
      case Some(sane) =>
        crashed := false;
        if sane {
          var path := uri.value.path.value;
          if path !in disk.files && createOk {
            disk.files := disk.files[path := []];
          }
          if writeOk {
            disk.files := disk.files[path := content];
          }
        }
    }

    /**
     * `showOpenOrLoad()`: without a sane URI the open dialog is shown and
     * nothing is loaded; a URI whose scheme or path is `null` makes the guard
     * throw before either happens.
     */
    method ShowOpenOrLoad(disk: Disk, fault: ReadFault) returns (outcome: Opening)
      modifies this`text
      ensures outcome == Crashed <==> UriIsSaneAsWritten(uri).None?
      ensures outcome == OpenDialog <==> UriIsSaneAsWritten(uri) == Some(false)
      ensures outcome == Loaded <==> UriIsSane(uri)
      ensures outcome != Loaded ==> text == old(text)
      ensures outcome == Loaded ==> var path := uri.value.path.value;
        text == if path in disk.files then Accumulated(disk.files[path], fault) else []
    {
      match UriIsSaneAsWritten(uri)
      case None =>
        outcome := Crashed;
      case Some(sane) =>
        if sane {
          Load(disk, fault);
          outcome := Loaded;
        } else {
          outcome := OpenDialog;
        }
    }

    /**
     * `showLicense()`: unless the license was accepted before, the license
     * text is read with the same loop as `load()` and shown. A read that
     * throws is reported, and the dialog is still shown with what was read.
     */
    method ShowLicense(accepted: bool, license: string, fault: ReadFault) returns (shown: Option<string>)
      modifies this`showingLicense
      ensures accepted ==> shown == None && showingLicense == old(showingLicense)
      ensures !accepted ==> shown == Some(Accumulated(license, fault)) && showingLicense
    {
      shown := None;
      if !accepted {
        var content, complete := ReadAll(license, fault);
        showingLicense := true;
        shown := Some(content);
      }
    }
  }

  /**
   * Saving with the URI sane and then loading with no fault gives back the
   * text with its last line terminated, in every EOL mode, when the text
   * holds no `\r`.
   */
  method SaveThenReload(e: Editor, disk: Disk, mode: int)
    requires UriIsSane(e.uri) && '\r' !in e.text
    modifies e, disk
    ensures e.text == Terminated(old(e.text))
  {
    ghost var original := e.text;
    var crashed := e.Save(disk, mode, true, true);
    e.Load(disk, NoFault);
    SaveThenLoad(original, mode);
  }
}
