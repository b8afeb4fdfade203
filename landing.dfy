/**
 * The upload page, public/landing.js: the backend address it talks to
 * (`getApiBase`), the check it runs on a chosen file (`handleFileSelect`),
 * and the sport / terrain / file selections that gate the upload button.
 */
module LandingPage {
  import opened Wrappers
  import opened Text
  import opened VideoStore

  // ---------------------------------------------------------------------
  // getApiBase

  /** What the page reads from `window.location`; a query parameter is `None` when absent. */
  datatype PageLocation = PageLocation(hostname: string, port: string, apiBaseParam: Option<string>, clearApiBaseParam: Option<string>)

  /** A JavaScript string that is neither `null` nor empty, i.e. truthy. */
  predicate Present(s: Option<string>) {
    s.Some? && s.value != ""
  }

  /** The hostnames the page treats as a local run. */
  predicate IsLocalHost(hostname: string) {
    hostname == "localhost" || hostname == "127.0.0.1" || hostname == ""
  }

  /** `http://${hostname}:${port || 3000}`. */
  function LocalBase(hostname: string, port: string): (r: string)
    ensures |r| > 8 + |hostname| && StartsWith(r, "http://")
    ensures r[7..7 + |hostname|] == hostname && r[7 + |hostname|] == ':'
    ensures port == "" ==> r[8 + |hostname|..] == "3000"
    ensures port != "" ==> r[8 + |hostname|..] == port
  {
    "http://" + hostname + ":" + (if port == "" then "3000" else port)
  }

  /**
   * The normalisation of the `apiBase` query parameter: surrounding white
   * space is trimmed, the run of trailing `/` removed, and `https://` put in
   * front unless the result already names `http://` or `https://`.
   */
  function NormalizeApiBase(param: string): (r: string)
    ensures StartsWith(r, "http://") || StartsWith(r, "https://")
    ensures var u := StripTrailingSlashes(Trim(param));
      (StartsWith(u, "http://") || StartsWith(u, "https://") ==> r == u)
      && (!StartsWith(u, "http://") && !StartsWith(u, "https://") ==> r == "https://" + u)
  {
    var url := StripTrailingSlashes(Trim(param));
    if !StartsWith(url, "http://") && !StartsWith(url, "https://") then "https://" + url else url
  }

  /** An address that already has its scheme, no surrounding white space and no trailing `/` is kept as it is. */
  lemma NormalizeKeepsBase(base: string)
    requires StartsWith(base, "http://") || StartsWith(base, "https://")
    requires !IsJsWhitespace(base[|base| - 1]) && base[|base| - 1] != '/'
    ensures NormalizeApiBase(base) == base
  {
    assert base[0] == 'h';
    TrimUnchanged(base);
    StripUnchanged(base);
  }

  /** A bare host, such as `abc.ngrok.io`, gets `https://` in front and nothing else changes. */
  lemma NormalizeAddsScheme(host: string)
    requires host != [] && !IsJsWhitespace(host[0]) && !IsJsWhitespace(host[|host| - 1]) && host[|host| - 1] != '/'
    requires !StartsWith(host, "http://") && !StartsWith(host, "https://")
    ensures NormalizeApiBase(host) == "https://" + host
  {
    TrimUnchanged(host);
    StripUnchanged(host);
  }

  /** A string with no white space at either end is its own trim. */
  lemma TrimUnchanged(s: string)
    requires s != [] && !IsJsWhitespace(s[0]) && !IsJsWhitespace(s[|s| - 1])
    ensures Trim(s) == s
  {
  }

  /** A string that does not end in `/` loses nothing to the slash stripping. */
  lemma StripUnchanged(s: string)
    requires s != [] && s[|s| - 1] != '/'
    ensures StripTrailingSlashes(s) == s
  {
  }

  /** The query parameter's origin, when it is present and the normalised address parses (`new URL(url).origin`). */
  function QueryOrigin(loc: PageLocation, originOf: string -> Option<string>): Option<string> {
    if Present(loc.apiBaseParam) then originOf(NormalizeApiBase(loc.apiBaseParam.value)) else None
  }

  /** The address chosen and what `localStorage`'s `apiBase` entry holds afterwards. */
  datatype ApiBaseChoice = ApiBaseChoice(base: string, stored: Option<string>)

  /**
   * `getApiBase`: a local page talks to its own host; otherwise a parsable
   * `apiBase` parameter wins and is remembered, `clearApiBase=1` forgets the
   * remembered one, and a remembered non-empty address is used; failing all
   * of these the base is empty. `originOf` stands for the URL parser.
   */
  function GetApiBase(loc: PageLocation, stored: Option<string>, originOf: string -> Option<string>): (r: ApiBaseChoice)
    ensures IsLocalHost(loc.hostname) ==> r == ApiBaseChoice(LocalBase(loc.hostname, loc.port), stored)
    ensures !IsLocalHost(loc.hostname) && QueryOrigin(loc, originOf).Some? ==>
      r.stored == QueryOrigin(loc, originOf) && r.base == r.stored.value
    ensures !IsLocalHost(loc.hostname) && QueryOrigin(loc, originOf).None? && loc.clearApiBaseParam == Some("1") ==>
      r == ApiBaseChoice("", None)
    ensures !IsLocalHost(loc.hostname) && QueryOrigin(loc, originOf).None? && loc.clearApiBaseParam != Some("1") ==>
      r.stored == stored && (Present(stored) ==> r.base == stored.value) && (!Present(stored) ==> r.base == "")
  {
    if IsLocalHost(loc.hostname) then
      ApiBaseChoice(LocalBase(loc.hostname, loc.port), stored)
    else
      var kept := if loc.clearApiBaseParam == Some("1") then None else stored;
      var fromQuery := QueryOrigin(loc, originOf);
      if fromQuery.Some? then
        ApiBaseChoice(fromQuery.value, fromQuery)
      else if Present(kept) then
        ApiBaseChoice(kept.value, kept)
      else
        ApiBaseChoice("", kept)
  }

  /**
   * The upload handler asks for the address a second time: with the same
   * location and the storage the first call left, it gets the same address.
   */
  lemma ApiBaseRecheckAgrees(loc: PageLocation, stored: Option<string>, originOf: string -> Option<string>)
    ensures var first := GetApiBase(loc, stored, originOf);
      GetApiBase(loc, first.stored, originOf) == first
  {
  }

  /** A page away from the local host without a usable parameter or a remembered address has no backend. */
  lemma NoBackendWithoutAddress(loc: PageLocation, stored: Option<string>, originOf: string -> Option<string>)
    requires !IsLocalHost(loc.hostname) && QueryOrigin(loc, originOf).None?
    ensures GetApiBase(loc, stored, originOf).base == "" <==>
      (loc.clearApiBaseParam == Some("1") || !Present(stored))
  {
  }

  // ---------------------------------------------------------------------
  // handleFileSelect

  /** The file the browser hands over: its name, its `type` and its size in bytes. */
  datatype PageFile = PageFile(name: string, mimeType: string, size: int)

  /** The page's own list of extensions. */
  const AllowedExtensions: seq<string> := [".mp4", ".mov", ".avi", ".webm"]

  /** The page's own list of MIME types (no `video/mpeg`, unlike the server). */
  const AllowedTypes: seq<string> := ["video/mp4", "video/quicktime", "video/x-msvideo", "video/webm"]

  /** The largest size the page lets through: 100 MiB. */
  const MaxFileBytes: int := 100 * 1024 * 1024

  /** `allowedExtensions.some(ext => file.name.toLowerCase().endsWith(ext))`. */
  predicate HasValidExtension(name: string) {
    exists k :: 0 <= k < |AllowedExtensions| && EndsWith(ToLower(name), AllowedExtensions[k])
  }

  /** `allowedTypes.includes(file.type)`. */
  predicate HasValidMimeType(mimeType: string) {
    mimeType in AllowedTypes
  }

  /** The verdict of `handleFileSelect`: kept, or refused with one of its two alerts. */
  datatype FileCheck = Accepted | BadType | TooLarge

  /**
   * A file is refused for its type only when both its extension and its MIME
   * type are wrong; a file whose type passes is refused when it is larger
   * than 100 MiB, and exactly 100 MiB passes.
   */
  function CheckFile(f: PageFile): (r: FileCheck)
    ensures r == BadType <==> !HasValidExtension(f.name) && !HasValidMimeType(f.mimeType)
    ensures r == TooLarge <==> (HasValidExtension(f.name) || HasValidMimeType(f.mimeType)) && f.size > 104857600
    ensures r == Accepted <==> (HasValidExtension(f.name) || HasValidMimeType(f.mimeType)) && f.size <= 104857600
  {
    if !HasValidExtension(f.name) && !HasValidMimeType(f.mimeType) then BadType
    else if f.size > MaxFileBytes then TooLarge
    else Accepted
  }

  /** For a lower-case extension, the server's case-blind suffix test and the page's lower-cased `endsWith` agree. */
  lemma SuffixTestsAgree(name: string, ext: string)
    requires forall k :: 0 <= k < |ext| ==> LowerChar(ext[k]) == ext[k]
    ensures RegexSuffix(name, ext) <==> EndsWith(ToLower(name), ext)
  {
    var lower := ToLower(name);
    if RegexSuffix(name, ext) {
      var tail := lower[|lower| - |ext|..];
      assert |tail| == |ext|;
      forall k | 0 <= k < |ext|
        ensures tail[k] == ext[k]
      {
        assert tail[k] == LowerChar(name[|name| - |ext| + k]);
      }
      assert tail == ext;
    }
    if EndsWith(lower, ext) {
      forall k | 0 <= k < |ext|
        ensures LowerChar(name[|name| - |ext| + k]) == LowerChar(ext[k])
      {
        assert lower[|lower| - |ext|..][k] == ext[k];
      }
    }
  }

  /** Every file the server would store also passes the page's check: the page never refuses what the server takes. */
  lemma ServerAcceptedPassesPage(file: UploadedFile)
    requires MulterAccepts(file)
    ensures CheckFile(PageFile(file.originalName, file.mimeType, file.size)) == Accepted
  {
    var k :| 0 <= k < |VideoExtensions| && RegexSuffix(file.originalName, VideoExtensions[k]);
    assert AllowedExtensions[k] == VideoExtensions[k];
    SuffixTestsAgree(file.originalName, VideoExtensions[k]);
    assert HasValidExtension(file.originalName);
  }

  /**
   * The converse fails: a text file announced as `video/mp4` passes the page
   * (one of its two tests suffices) and is refused by the server's filter
   * (which needs both).
   */
  lemma PageAcceptsWhatServerRejects()
    ensures var upload := UploadedFile("notes.txt", "video/mp4", 10, "stored");
      && CheckFile(PageFile(upload.originalName, upload.mimeType, upload.size)) == Accepted
      && !MulterAccepts(upload)
  {
    TextFileName();
  }

  /** `notes.txt` matches none of the server's video extensions. */
  lemma TextFileName()
    ensures !ServerExtensionOk("notes.txt")
  {
    var name := "notes.txt";
    forall k | 0 <= k < |VideoExtensions|
      ensures !RegexSuffix(name, VideoExtensions[k])
    {
      LastCharsDiffer(name, VideoExtensions[k]);
    }
  }

  /** Two strings whose last letters differ, even folded, fail the suffix test. */
  lemma LastCharsDiffer(name: string, ext: string)
    requires 1 <= |ext| <= |name|
    requires LowerChar(name[|name| - 1]) != LowerChar(ext[|ext| - 1])
    ensures !RegexSuffix(name, ext)
  {
    assert name[|name| - |ext| + (|ext| - 1)] == name[|name| - 1];
  }

  // ---------------------------------------------------------------------
  // The page's selections and the upload button

  /** The form `uploadBtn`'s handler posts. */
  datatype UploadForm = UploadForm(file: PageFile, sport: string, terrain: string, duration: real)

  /** `formData.append(name, value)` for a selection: a `null` one is sent as the text `"null"`. */
  function FormText(selection: Option<string>): (r: string)
    ensures selection.Some? ==> r == selection.value
    ensures selection.None? ==> r == "null"
  {
    if selection.Some? then selection.value else "null"
  }

  /** How the upload button's handler ends once the clip's duration is known. */
  datatype UploadStart =
    | ApiBaseUnparsed                // an `apiBase` parameter is there but gave no address
    | NoBackend                      // no address at all
    | Sending(endpoint: string, form: UploadForm)

  /**
   * The page's module-level selections and the parts of the DOM they drive.
   * `pending` counts the clicks that passed the selection check and still
   * await `getVideoDuration`.
   */
  class LandingState {
    var selectedSport: Option<string>
    var selectedTerrain: Option<string>
    var selectedFile: Option<PageFile>
    var terrainShown: bool
    var uploadShown: bool
    var uploadDisabled: bool
    var progressShown: bool
    var pending: nat

    /**
     * The terrain section appears with a sport, the upload section with a
     * terrain; the button is live, and a click can be pending, only once a
     * file is chosen.
     */
    predicate Valid()
      reads this
    {
      && (terrainShown <==> selectedSport.Some?)
      && (uploadShown <==> selectedTerrain.Some?)
      && (!uploadDisabled ==> selectedFile.Some?)
      && (pending > 0 ==> selectedFile.Some?)
    }

    /** The page as it loads: nothing chosen, both sections hidden, the button disabled. */
    constructor()
      ensures Valid()
      ensures selectedSport == None && selectedTerrain == None && selectedFile == None
      ensures !terrainShown && !uploadShown && uploadDisabled && !progressShown && pending == 0
    {
      selectedSport := None;
      selectedTerrain := None;
      selectedFile := None;
      terrainShown := false;
      uploadShown := false;
      uploadDisabled := true;
      progressShown := false;
      pending := 0;
    }

    /** A sport button: the sport is chosen, the terrain choice is dropped and the upload section hidden again. */
    method SelectSport(sport: string)
      requires Valid()
      modifies this
      ensures Valid()
      ensures selectedSport == Some(sport) && terrainShown
      ensures selectedTerrain == None && !uploadShown
      ensures selectedFile == old(selectedFile) && uploadDisabled == old(uploadDisabled)
      ensures progressShown == old(progressShown) && pending == old(pending)
    {
      selectedSport := Some(sport);
      terrainShown := true;
      selectedTerrain := None;
      uploadShown := false;
    }

    /** A terrain button: the terrain is chosen and the upload section shown. */
    method SelectTerrain(terrain: string)
      requires Valid()
      modifies this
      ensures Valid()
      ensures selectedTerrain == Some(terrain) && uploadShown
      ensures selectedSport == old(selectedSport) && terrainShown == old(terrainShown)
      ensures selectedFile == old(selectedFile) && uploadDisabled == old(uploadDisabled)
      ensures progressShown == old(progressShown) && pending == old(pending)
    {
      selectedTerrain := Some(terrain);
      uploadShown := true;
    }

    /** `handleFileSelect`: an accepted file becomes the selection and enables the button; a refused one changes nothing. */
    method HandleFileSelect(f: PageFile) returns (verdict: FileCheck)
      requires Valid()
      modifies this
      ensures Valid()
      ensures verdict == CheckFile(f)
      ensures verdict == Accepted ==> selectedFile == Some(f) && !uploadDisabled
      ensures verdict != Accepted ==> selectedFile == old(selectedFile) && uploadDisabled == old(uploadDisabled)
      ensures selectedSport == old(selectedSport) && selectedTerrain == old(selectedTerrain)
      ensures terrainShown == old(terrainShown) && uploadShown == old(uploadShown)
      ensures progressShown == old(progressShown) && pending == old(pending)
    {
      verdict := CheckFile(f);
      if verdict == Accepted {
        selectedFile := Some(f);
        uploadDisabled := false;
      }
    }

    /**
     * A click on the upload button, up to the `await getVideoDuration(...)`:
     * without a sport, a terrain and a file the alert is shown and nothing
     * changes; otherwise the handler suspends, and nothing else changes yet
     * either: the button stays live, so a second click starts a second wait.
     * A disabled button fires no click.
     */
    method ClickUpload() returns (started: bool)
      requires Valid() && !uploadDisabled
      modifies this
      ensures Valid()
      ensures started <==> Present(old(selectedSport)) && Present(old(selectedTerrain)) && old(selectedFile).Some?
      ensures pending == old(pending) + (if started then 1 else 0)
      ensures selectedSport == old(selectedSport) && selectedTerrain == old(selectedTerrain) && selectedFile == old(selectedFile)
      ensures terrainShown == old(terrainShown) && uploadShown == old(uploadShown)
      ensures uploadDisabled == old(uploadDisabled) && progressShown == old(progressShown)
    {
      started := Present(selectedSport) && Present(selectedTerrain) && selectedFile.Some?;
      if started {
        pending := pending + 1;
      }
    }

    /**
     * A pending click resumes with the clip's duration, the address
     * `getApiBase` yields at that moment and the raw `apiBase` parameter.
     * The form is built from the selections as they are NOW, which other
     * clicks may have changed during the wait. Without an address the error
     * is reported and the button restored; otherwise the form is posted to
     * `<base>/api/upload` with the progress shown and the button disabled.
     */
    method DurationResolved(duration: real, currentApiBase: string, urlParam: Option<string>) returns (outcome: UploadStart)
      requires Valid() && pending > 0
      modifies this
      ensures Valid()
      ensures pending == old(pending) - 1
      ensures outcome == ApiBaseUnparsed <==> currentApiBase == "" && Present(urlParam)
      ensures outcome == NoBackend <==> currentApiBase == "" && !Present(urlParam)
      ensures outcome == ApiBaseUnparsed || outcome == NoBackend ==> !uploadDisabled && !progressShown
      ensures outcome.Sending? ==>
        && outcome.endpoint == currentApiBase + "/api/upload"
        && outcome.form == UploadForm(old(selectedFile).value, FormText(old(selectedSport)), FormText(old(selectedTerrain)), duration)
        && uploadDisabled && progressShown
      ensures selectedSport == old(selectedSport) && selectedTerrain == old(selectedTerrain) && selectedFile == old(selectedFile)
      ensures terrainShown == old(terrainShown) && uploadShown == old(uploadShown)
    {
      pending := pending - 1;
      var form := UploadForm(selectedFile.value, FormText(selectedSport), FormText(selectedTerrain), duration);
      progressShown := true;
      uploadDisabled := true;
      if currentApiBase == "" {
        // Both errors are thrown inside the `try` and land in its `catch`.
        outcome := if Present(urlParam) then ApiBaseUnparsed else NoBackend;
        progressShown := false;
        uploadDisabled := false;
        return;
      }
      outcome := Sending(currentApiBase + "/api/upload", form);
    }
  }

  /** Changing the sport forces a new terrain choice: an upload straight after it is refused. */
  method ChangeSportThenUpload(page: LandingState, sport: string)
      returns (started: bool)
    requires page.Valid() && !page.uploadDisabled
    modifies page
    ensures page.Valid()
    ensures !started && page.pending == old(page.pending)
    ensures page.selectedSport == Some(sport) && page.selectedTerrain == None
  {
    page.SelectSport(sport);
    started := page.ClickUpload();
  }

  /** With sport, terrain and an accepted file chosen, a click with an address posts exactly those choices. */
  method ChooseAllThenUpload(sport: string, terrain: string, f: PageFile, duration: real, currentApiBase: string)
      returns (outcome: UploadStart)
    requires sport != "" && terrain != "" && currentApiBase != ""
    requires CheckFile(f) == Accepted
    ensures outcome == Sending(currentApiBase + "/api/upload", UploadForm(f, sport, terrain, duration))
  {
    var page := new LandingState();
    page.SelectSport(sport);
    page.SelectTerrain(terrain);
    var verdict := page.HandleFileSelect(f);
    var started := page.ClickUpload();
    outcome := page.DurationResolved(duration, currentApiBase, None);
  }

  /**
   * A sport button pressed while the duration is awaited drops the terrain
   * choice, and the form then carries the new sport and the terrain `"null"`.
   */
  method SportChangeDuringWait(sport: string, terrain: string, f: PageFile, other: string, duration: real, currentApiBase: string)
      returns (outcome: UploadStart)
    requires sport != "" && terrain != "" && currentApiBase != ""
    requires CheckFile(f) == Accepted
    ensures outcome == Sending(currentApiBase + "/api/upload", UploadForm(f, other, "null", duration))
  {
    var page := new LandingState();
    page.SelectSport(sport);
    page.SelectTerrain(terrain);
    var verdict := page.HandleFileSelect(f);
    var started := page.ClickUpload();
    page.SelectSport(other);
    outcome := page.DurationResolved(duration, currentApiBase, None);
  }

  /** Two clicks before the duration arrives start two uploads of the same choices. */
  method DoubleClickSendsTwice(sport: string, terrain: string, f: PageFile, duration: real, currentApiBase: string)
      returns (first: UploadStart, second: UploadStart)
    requires sport != "" && terrain != "" && currentApiBase != ""
    requires CheckFile(f) == Accepted
    ensures first == second == Sending(currentApiBase + "/api/upload", UploadForm(f, sport, terrain, duration))
  {
    var page := new LandingState();
    page.SelectSport(sport);
    page.SelectTerrain(terrain);
    var verdict := page.HandleFileSelect(f);
    var started := page.ClickUpload();
    started := page.ClickUpload();
    first := page.DurationResolved(duration, currentApiBase, None);
    second := page.DurationResolved(duration, currentApiBase, None);
  }
}
