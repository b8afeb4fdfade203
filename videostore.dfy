/**
 * The upload side of server.js: multer's file filter and size limit, the
 * in-memory `videoData` map, and the `/api/upload` and `/api/video/:videoId`
 * routes that write and read it.
 */
module VideoStore {
  import opened Wrappers
  import opened Text
  import opened KeyFrames
  import opened Segmentation
  import opened Coaching

  /** multer's `limits.fileSize`: 100 MiB. */
  const MaxUploadBytes: int := 100 * 1024 * 1024

  /** The MIME types the server's filter lists. */
  const ServerVideoTypes: set<string> := {"video/mp4", "video/quicktime", "video/x-msvideo", "video/webm", "video/mpeg"}

  /** The extensions, lower case with their dot, that both the server and the page accept. */
  const VideoExtensions: seq<string> := [".mp4", ".mov", ".avi", ".webm"]

  /** The regular expression `ext$` under the `i` flag: `name` ends with `ext`, ASCII letters folded. */
  predicate RegexSuffix(name: string, ext: string) {
    |ext| <= |name| && forall k :: 0 <= k < |ext| ==> LowerChar(name[|name| - |ext| + k]) == LowerChar(ext[k])
  }

  /** `/\.(mp4|mov|avi|webm)$/i.test(name)`. */
  predicate ServerExtensionOk(name: string) {
    exists k :: 0 <= k < |VideoExtensions| && RegexSuffix(name, VideoExtensions[k])
  }

  /** One upload as multer hands it over. */
  datatype UploadedFile = UploadedFile(originalName: string, mimeType: string, size: int, storedName: string)

  /** The `fileFilter` callback: the name must match the pattern and the MIME type must be listed. */
  function FileFilter(file: UploadedFile): (ok: bool)
    ensures ok ==> file.mimeType in ServerVideoTypes
    ensures ok ==> exists k :: 0 <= k < |VideoExtensions| && RegexSuffix(file.originalName, VideoExtensions[k])
    ensures !ok ==> file.mimeType !in ServerVideoTypes || !ServerExtensionOk(file.originalName)
  {
    ServerExtensionOk(file.originalName) && file.mimeType in ServerVideoTypes
  }

  /** What multer lets through to the route: the filter passes and the size is within the limit. */
  predicate MulterAccepts(file: UploadedFile) {
    FileFilter(file) && file.size <= MaxUploadBytes
  }

  /** A stored analysis, as `videoData.set` records it. */
  datatype VideoRecord = VideoRecord(
    id: string,
    filename: string,
    url: string,
    sport: string,
    terrain: string,
    duration: real,
    fps: real,
    scenes: seq<Segment>,
    coachingJson: string,
    practice: seq<Drill>)

  /** The form fields of `/api/upload`; `duration` is `None` when `parseFloat` gives NaN. */
  datatype UploadRequest = UploadRequest(
    file: Option<UploadedFile>,
    sport: Option<string>,
    terrain: Option<string>,
    duration: Option<real>)

  /** How `/api/upload` ends. */
  datatype UploadOutcome =
    | Stored(videoId: string, record: VideoRecord)
    | FilterRejected   // the multer middleware fails before the route runs
    | MissingFile      // 400 from the route
    | CoachingFailed   // 500 from the route's catch

  /**
   * The record the upload route stores, given the outcome of the two probes,
   * the JSON text the coaching reply yields and the practice reply.
   */
  function UploadRecord(videoId: string, file: UploadedFile, req: UploadRequest, metaProbe: Probe, samplerProbe: Probe,
                        coachingText: string, practice: PracticeReply): (r: VideoRecord)
    requires ValidProbe(metaProbe) && ValidProbe(samplerProbe)
    requires req.duration.Some? ==> req.duration.value >= 0.0
    ensures r.id == videoId && r.filename == file.storedName && r.url == "/uploads/" + file.storedName
    ensures r.duration == UploadMetadata(metaProbe, req.duration).duration && r.fps == UploadMetadata(metaProbe, req.duration).fps
    ensures r.duration > 0.0 && r.fps > 0.0
    ensures r.scenes == UploadScenes(metaProbe, samplerProbe, req.duration)
    ensures r.sport == FieldOr(req.sport, "ski") && r.terrain == FieldOr(req.terrain, "blue")
    ensures r.sport != "" && r.terrain != ""
    ensures r.coachingJson == ExtractJson(coachingText) && r.practice == PracticeRecommendations(r.sport, practice)
  {
    var sport := FieldOr(req.sport, "ski");
    var terrain := FieldOr(req.terrain, "blue");
    var m := UploadMetadata(metaProbe, req.duration);
    VideoRecord(videoId, file.storedName, "/uploads/" + file.storedName, sport, terrain, m.duration, m.fps,
                UploadScenes(metaProbe, samplerProbe, req.duration), ExtractJson(coachingText),
                PracticeRecommendations(sport, practice))
  }

  /** Every stored record carries an ordered five-segment cut at its own frame rate. */
  lemma UploadRecordOrdered(videoId: string, file: UploadedFile, req: UploadRequest, metaProbe: Probe, samplerProbe: Probe,
                            coachingText: string, practice: PracticeReply)
    requires ValidProbe(metaProbe) && ValidProbe(samplerProbe)
    requires req.duration.Some? ==> req.duration.value >= 0.0
    ensures var r := UploadRecord(videoId, file, req, metaProbe, samplerProbe, coachingText, practice);
      WellFormedCut(r.scenes, r.fps) && ScenesWithFrames(r.scenes, r.fps) == r.scenes
  {
    UploadScenesOrdered(metaProbe, samplerProbe, req.duration);
    UploadPromptScenes(metaProbe, samplerProbe, req.duration);
  }

  /** The process-wide `videoData` map. */
  class VideoStore {
    var records: map<string, VideoRecord>

    /** `new Map()`. */
    constructor()
      ensures records == map[]
    {
      records := map[];
    }

    /** `videoData.get(videoId)`; `None` is the routes' 404. */
    function Get(videoId: string): (r: Option<VideoRecord>)
      reads this
      ensures r.Some? <==> videoId in records
      ensures r.Some? ==> r.value == records[videoId]
    {
      if videoId in records then Some(records[videoId]) else None
    }

    /** `videoData.set(videoId, record)`: the id now maps to the record; every other id is untouched. */
    method Set(videoId: string, record: VideoRecord)
      modifies this
      ensures records == old(records)[videoId := record]
      ensures Get(videoId) == Some(record)
      ensures forall id :: id != videoId ==> Get(id) == old(Get(id))
    {
      records := records[videoId := record];
    }

    /** `GET /api/video/:videoId/coaching`: the stored coaching JSON, or 404. */
    function GetCoaching(videoId: string): (r: Option<string>)
      reads this
      ensures r.Some? <==> Get(videoId).Some?
      ensures r.Some? ==> r.value == Get(videoId).value.coachingJson
    {
      match Get(videoId)
      case None => None
      case Some(rec) => Some(rec.coachingJson)
    }

    /**
     * `POST /api/upload`. The upload must pass multer; without a file the
     * route answers 400; a failed coaching request (`None`) ends in 500 and
     * stores nothing; otherwise the record is stored under `videoId`.
     */
    method HandleUpload(req: UploadRequest, videoId: string, metaProbe: Probe, samplerProbe: Probe,
                        coachingReply: Option<string>, practice: PracticeReply) returns (outcome: UploadOutcome)
      requires ValidProbe(metaProbe) && ValidProbe(samplerProbe)
      requires req.duration.Some? ==> req.duration.value >= 0.0
      modifies this
      ensures req.file.Some? && !MulterAccepts(req.file.value) ==> outcome == FilterRejected
      ensures req.file.None? ==> outcome == MissingFile
      ensures req.file.Some? && MulterAccepts(req.file.value) && coachingReply.None? ==> outcome == CoachingFailed
      ensures req.file.Some? && MulterAccepts(req.file.value) && coachingReply.Some? ==> outcome.Stored?
      ensures !outcome.Stored? ==> records == old(records)
      ensures outcome.Stored? ==>
        && req.file.Some? && coachingReply.Some?
        && outcome.videoId == videoId
        && outcome.record == UploadRecord(videoId, req.file.value, req, metaProbe, samplerProbe, coachingReply.value, practice)
        && records == old(records)[videoId := outcome.record]
        && WellFormedCut(outcome.record.scenes, outcome.record.fps)
    {
      if req.file.Some? && !MulterAccepts(req.file.value) {
        return FilterRejected;
      }
      if req.file.None? {
        return MissingFile;
      }
      var file := req.file.value;
      var sport := FieldOr(req.sport, "ski");
      var terrain := FieldOr(req.terrain, "blue");
      var metadata := UploadMetadata(metaProbe, req.duration);
      var scenes := SegmentVideoWithMotion(samplerProbe, metadata.duration, metadata.fps);
      if coachingReply.None? {
        return CoachingFailed;
      }
      var coachingJson := ExtractJson(coachingReply.value);
      var recommendations := PracticeRecommendations(sport, practice);
      var record := VideoRecord(videoId, file.storedName, "/uploads/" + file.storedName, sport, terrain,
                                metadata.duration, metadata.fps, scenes, coachingJson, recommendations);
      Set(videoId, record);
      UploadRecordOrdered(videoId, file, req, metaProbe, samplerProbe, coachingReply.value, practice);
      outcome := Stored(videoId, record);
    }
  }

  /** An upload followed by a lookup of its id finds the stored record; other ids are unaffected. */
  method UploadThenGet(store: VideoStore, req: UploadRequest, videoId: string, metaProbe: Probe, samplerProbe: Probe,
                       coachingReply: Option<string>, practice: PracticeReply, other: string)
      returns (found: Option<VideoRecord>, otherFound: Option<VideoRecord>)
    requires ValidProbe(metaProbe) && ValidProbe(samplerProbe)
    requires req.duration.Some? ==> req.duration.value >= 0.0
    requires other != videoId
    modifies store
    ensures req.file.Some? && MulterAccepts(req.file.value) && coachingReply.Some? ==>
      found.Some? && found.value.scenes == UploadScenes(metaProbe, samplerProbe, req.duration)
    ensures otherFound == old(store.Get(other))
  {
    var outcome := store.HandleUpload(req, videoId, metaProbe, samplerProbe, coachingReply, practice);
    found := store.Get(videoId);
    otherFound := store.Get(other);
  }
}
