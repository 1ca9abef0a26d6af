/**
 * `handlerUploadThumbnail` and `convertMediaTypeToExtension` (handler_upload_thumbnail.go):
 * the thumbnail is copied into a file under `assets/` with a random name, and the record's
 * thumbnail URL is pointed at the server's own `/assets/` route for it.
 */
module UploadThumbnail {
  import opened Wrappers
  import opened Base64
  import opened Urls
  import opened Records

  /** The accepted image types and the extension each file gets. */
  const ThumbnailExtensions: map<string, string> := map["image/png" := ".png", "image/jpeg" := ".jpg"]

  /** Lines 121-128: the extension for an accepted image type, an error for any other. */
  function ConvertMediaTypeToExtension(mediaType: string): (r: Result<string>)
    ensures r.Ok? <==> mediaType in ThumbnailExtensions
    ensures r.Ok? ==> r.value == ThumbnailExtensions[mediaType]
  {
    if mediaType == "image/png" then Ok(".png")
    else if mediaType == "image/jpeg" then Ok(".jpg")
    else Err("invalid media type")
  }

  /**
   * `filepath.Join("./assets/", name)`: for a name without '/', other than "." and "..",
   * the cleaned join is `assets/` followed by the name.
   */
  function AssetPath(name: string): string {
    "assets/" + name
  }

  /** The URL the server serves the asset under (line 98). */
  function ThumbnailUrl(port: string, name: string): string {
    "http://localhost:" + port + "/assets/" + name
  }

  /**
   * The record the handler writes back, rebuilt field by field (lines 100-111). For the owner
   * it is the fetched record with only the id, the thumbnail URL and the update time replaced.
   */
  function WithThumbnailUrl(video: Video, videoId: Uuid, userId: Uuid, url: string, now: Timestamp): (r: Video)
    ensures userId == video.userId ==> r == video.(id := videoId, thumbnailUrl := Some(url), updatedAt := now)
  {
    Video(
      id := videoId,
      createdAt := video.createdAt,
      updatedAt := now,
      thumbnailUrl := Some(url),
      videoUrl := video.videoUrl,
      title := video.title,
      description := video.description,
      userId := userId)
  }

  /** What the collaborators report to one call of the handler, in the order it consults them. */
  datatype ThumbnailEnv = ThumbnailEnv(
    videoId: Option<Uuid>,     // uuid.Parse of the videoID path value
    token: Option<string>,     // auth.GetBearerToken
    jwtUser: Option<Uuid>,     // auth.ValidateJWT(token, cfg.jwtSecret)
    formParsed: bool,          // r.ParseMultipartForm(maxMemory)
    file: Option<Part>,        // r.FormFile("thumbnail")
    fetched: Option<Video>,    // cfg.db.GetVideo(videoID)
    random: RandomPath,        // the bytes rand.Read produced
    randomOk: bool,            // rand.Read reported no error
    created: bool,             // os.Create(filePath)
    copied: bool,              // io.Copy(newFile, file)
    now: Timestamp,            // time.Now()
    updated: bool)             // cfg.db.UpdateVideo reported no error

  /** The path id parsed and the bearer token was found and validated. */
  predicate Authenticated(env: ThumbnailEnv) {
    env.videoId.Some? && env.token.Some? && env.jwtUser.Some?
  }

  /** The form parsed and has a `thumbnail` part. */
  predicate HasPart(env: ThumbnailEnv) {
    Authenticated(env) && env.formParsed && env.file.Some?
  }

  /** The request gets as far as comparing the record's owner with the caller. */
  predicate ReachesOwnerCheck(env: ThumbnailEnv) {
    HasPart(env) && env.file.value.mediaType.Some? && env.fetched.Some?
  }

  /** The caller owns the video, and the declared media type is an accepted image type. */
  predicate Validated(env: ThumbnailEnv) {
    ReachesOwnerCheck(env) && env.fetched.value.userId == env.jwtUser.value
    && env.file.value.mediaType.value in ThumbnailExtensions
  }

  /** The asset file was created (the random bytes were drawn first). */
  predicate Created(env: ThumbnailEnv) {
    Validated(env) && env.randomOk && env.created
  }

  /** The file name the handler uses once the request is validated. */
  function NameFor(env: ThumbnailEnv): string
    requires Validated(env)
  {
    EncodedName(Encode(env.random), ThumbnailExtensions[env.file.value.mediaType.value])
  }

  /** The record the handler writes back: the fetched one, now pointing at the asset. */
  function UpdatedRecord(cfg: Config, env: ThumbnailEnv): Video
    requires Validated(env)
  {
    env.fetched.value.(
      id := env.videoId.value,
      thumbnailUrl := Some(ThumbnailUrl(cfg.port, NameFor(env))),
      updatedAt := env.now)
  }

  /**
   * The handler (lines 19-54): parse the id, authenticate, parse the form and take the
   * `thumbnail` part, then serve it. The part is never closed, and nothing caps the body.
   */
  method HandleUploadThumbnail(cfg: Config, env: ThumbnailEnv)
    returns (status: int, response: Option<Video>, trace: seq<Effect>)
    // status codes
    ensures status in {StatusOK, StatusBadRequest, StatusUnauthorized, StatusInternalServerError}
    ensures status == StatusBadRequest <==> env.videoId.None?
    ensures status == StatusUnauthorized <==>
      env.videoId.Some? && (env.token.None? || env.jwtUser.None?
        || (ReachesOwnerCheck(env) && env.fetched.value.userId != env.jwtUser.value))
    ensures status == StatusOK <==> Created(env) && env.copied && env.updated
    ensures response == if status == StatusOK then Some(UpdatedRecord(cfg, env)) else None
    // the part is handed out by a successful FormFile and never closed
    ensures HasPart(env) <==> trace != []
    ensures HasPart(env) ==> trace[0] == UploadOpened
    ensures UploadClosed !in trace
    // no file is created or written before validation, and there is only the one file
    ensures !Validated(env) ==> trace == if HasPart(env) then [UploadOpened] else []
    ensures Validated(env) ==> trace == [UploadOpened] + AssetEffects(env, AssetPath(NameFor(env)), UpdatedRecord(cfg, env))
    ensures Creates(trace) <==> Created(env)
    ensures Created(env) ==> trace[1] == AssetCreated(AssetPath(NameFor(env)))
    ensures Validated(env) ==> AssetsAt(trace, AssetPath(NameFor(env)))
    // the record is updated only after the copy succeeded, and only its thumbnail URL changes
    ensures Updates(trace) <==> Created(env) && env.copied
    ensures Validated(env) ==> UpdatesAfter(trace, UpdatedRecord(cfg, env), AssetWritten(AssetPath(NameFor(env))))
  {
    response := None;
    trace := [];
    var failed := Authenticate(env.videoId, env.token, env.jwtUser);
    if failed.Some? {
      return failed.value, response, trace;
    }
    if !env.formParsed {
      return StatusInternalServerError, response, trace;
    }
    if env.file.None? {
      return StatusInternalServerError, response, trace;
    }
    var served: seq<Effect>;
    status, response, served := ServeThumbnail(cfg, env);
    trace := [UploadOpened] + served;
    assert trace == [UploadOpened] + served + [];
    if Validated(env) {
      var path := AssetPath(NameFor(env));
      FramedUpdates([UploadOpened], served, [], UpdatedRecord(cfg, env), AssetWritten(path));
      FramedAssets([UploadOpened], served, [], path);
    }
  }

  /**
   * Lines 56-76: read the media type, fetch the record, check the owner and turn the type
   * into an extension, then hand over to `PublishThumbnail`.
   */
  method ServeThumbnail(cfg: Config, env: ThumbnailEnv) returns (status: int, response: Option<Video>, trace: seq<Effect>)
    requires HasPart(env)
    ensures status in {StatusOK, StatusUnauthorized, StatusInternalServerError}
    ensures status == StatusUnauthorized <==> ReachesOwnerCheck(env) && env.fetched.value.userId != env.jwtUser.value
    ensures status == StatusOK <==> Created(env) && env.copied && env.updated
    ensures response == if status == StatusOK then Some(UpdatedRecord(cfg, env)) else None
    ensures !Validated(env) ==> trace == []
    ensures Validated(env) ==> trace == AssetEffects(env, AssetPath(NameFor(env)), UpdatedRecord(cfg, env))
    ensures UploadClosed !in trace
    ensures Creates(trace) <==> Created(env)
    ensures Created(env) ==> trace[0] == AssetCreated(AssetPath(NameFor(env)))
    ensures Validated(env) ==> AssetsAt(trace, AssetPath(NameFor(env)))
    ensures Updates(trace) <==> Created(env) && env.copied
    ensures Validated(env) ==> UpdatesAfter(trace, UpdatedRecord(cfg, env), AssetWritten(AssetPath(NameFor(env))))
  {
    response := None;
    trace := [];
    var videoId, userId, part := env.videoId.value, env.jwtUser.value, env.file.value;
    if part.mediaType.None? {
      return StatusInternalServerError, response, trace;
    }
    var mediaType := part.mediaType.value;
    if env.fetched.None? {
      return StatusInternalServerError, response, trace;
    }
    var video := env.fetched.value;
    if video.userId != userId {
      return StatusUnauthorized, response, trace;
    }
    var extension := ConvertMediaTypeToExtension(mediaType);
    if extension.Err? {
      return StatusInternalServerError, response, trace;
    }
    status, response, trace := PublishThumbnail(cfg, env, videoId, userId, video, extension.value);
    assert EncodedName(Encode(env.random), extension.value) == NameFor(env);
  }

  /**
   * The effects of publishing the thumbnail, in order: once the random draw and the create
   * succeeded, the asset file's creation and the copy into it, and once the copy succeeded, the
   * one record update. Nothing else, and nothing twice.
   */
  function AssetEffects(env: ThumbnailEnv, path: string, record: Video): seq<Effect> {
    (if env.randomOk && env.created then [AssetCreated(path), AssetWritten(path)] else [])
    + (if env.randomOk && env.created && env.copied then [VideoUpdated(record)] else [])
  }

  /**
   * Lines 78-118: draw the name, create the asset file and copy the part into it, then write
   * the record back with the asset's URL. Neither file is closed afterwards.
   */
  method PublishThumbnail(cfg: Config, env: ThumbnailEnv, videoId: Uuid, userId: Uuid, video: Video, extension: string)
    returns (status: int, response: Option<Video>, trace: seq<Effect>)
    ensures status == StatusOK || status == StatusInternalServerError
    ensures status == StatusOK <==> env.randomOk && env.created && env.copied && env.updated
    ensures response == if status == StatusOK
      then Some(WithThumbnailUrl(video, videoId, userId, ThumbnailUrl(cfg.port, EncodedName(Encode(env.random), extension)), env.now))
      else None
    ensures trace == AssetEffects(env, AssetPath(EncodedName(Encode(env.random), extension)),
      WithThumbnailUrl(video, videoId, userId, ThumbnailUrl(cfg.port, EncodedName(Encode(env.random), extension)), env.now))
    ensures UploadClosed !in trace
    ensures Creates(trace) <==> env.randomOk && env.created
    ensures !Creates(trace) ==> trace == []
    ensures Creates(trace) ==> trace[0] == AssetCreated(AssetPath(EncodedName(Encode(env.random), extension)))
    ensures AssetsAt(trace, AssetPath(EncodedName(Encode(env.random), extension)))
    ensures Updates(trace) <==> env.randomOk && env.created && env.copied
    ensures UpdatesAfter(trace,
      WithThumbnailUrl(video, videoId, userId, ThumbnailUrl(cfg.port, EncodedName(Encode(env.random), extension)), env.now),
      AssetWritten(AssetPath(EncodedName(Encode(env.random), extension))))
  {
    response := None;
    trace := [];
    var encodedPath := Encode(env.random);
    if !env.randomOk {
      return StatusInternalServerError, response, trace;
    }
    var filePath := AssetPath(EncodedName(encodedPath, extension));
    if !env.created {
      return StatusInternalServerError, response, trace;
    }
    trace := [AssetCreated(filePath), AssetWritten(filePath)];
    assert trace[0].AssetCreated?;
    if !env.copied {
      return StatusInternalServerError, response, trace;
    }
    var thumbnailUrl := ThumbnailUrl(cfg.port, EncodedName(encodedPath, extension));
    var updatedVideo := WithThumbnailUrl(video, videoId, userId, thumbnailUrl, env.now);
    trace := trace + [VideoUpdated(updatedVideo)];
    assert trace[0].AssetCreated? && trace[2].VideoUpdated? && EarlierIn(trace, 2, trace[1]);
    if !env.updated {
      return StatusInternalServerError, response, trace;
    }
    status, response := StatusOK, Some(updatedVideo);
  }

  /**
   * The asset's name (line 85) for the 32 random bytes and an accepted extension: 48
   * characters without '/', whose first 44 decode back to the bytes.
   */
  lemma AssetNameShape(random: RandomPath, extension: string)
    requires extension in ThumbnailExtensions.Values
    ensures |EncodedName(Encode(random), extension)| == 48
    ensures '/' !in EncodedName(Encode(random), extension)
    ensures Decode(EncodedName(Encode(random), extension)[..44]) == Some(random)
  {
    var name := EncodedName(Encode(random), extension);
    EncodeOf32(random);
    DecodeEncode(random);
    EncodeHasNoSlash(random);
    assert extension == ".png" || extension == ".jpg";
    NoSlashJoin(Encode(random), extension);
    assert name[..44] == Encode(random);
  }

  /**
   * A name without '/' makes a path (line 85) that lies directly inside the `assets`
   * directory: its first '/' ends the directory name, and no other follows.
   */
  lemma AssetPathInAssetsDir(name: string)
    requires '/' !in name
    ensures FirstSlash(AssetPath(name)) == 6
    ensures AssetPath(name)[..6] == "assets"
    ensures AssetPath(name)[7..] == name
  {
    var p := AssetPath(name);
    FirstSlashAfter("assets", "/" + name);
    assert p == "assets" + ("/" + name);
    assert p[7..] == name;
  }

  /**
   * The thumbnail URL (line 98) is served by `localhost` on the configured port, and its path
   * is the asset's file path (line 85), so the URL names the file the handler wrote.
   */
  lemma ThumbnailUrlNamesAsset(port: string, name: string)
    requires '/' !in port
    ensures ParseUrl(ThumbnailUrl(port, name)) == Some(Url("http", "localhost:" + port, "/" + AssetPath(name)))
  {
    NoSlashJoin("localhost:", port);
    ParseHttp("localhost:" + port, "/" + AssetPath(name));
    ThumbnailUrlSplit(port, name);
  }

  /** The thumbnail URL is `http://`, then the host and port, then `/` and the asset's path. */
  lemma ThumbnailUrlSplit(port: string, name: string)
    ensures ThumbnailUrl(port, name) == "http://" + ("localhost:" + port) + ("/" + AssetPath(name))
  {
    assert "http://localhost:" == "http://" + "localhost:";
    assert "/assets/" == "/" + "assets/";
    Associate("http://", "localhost:", port);
    Associate("http://" + ("localhost:" + port), "/assets/", name);
    Associate("/", "assets/", name);
  }

  /**
   * The thumbnail URL of the record the handler writes back names the file it created: served
   * by `localhost` on the configured port, with a path that is `/` and the asset's file path,
   * a file directly inside `assets` whose name starts with the 44 characters of the random bytes.
   */
  lemma RecordNamesAsset(cfg: Config, env: ThumbnailEnv)
    requires '/' !in cfg.port
    requires Validated(env)
    ensures UpdatedRecord(cfg, env).thumbnailUrl.Some?
    ensures ParseUrl(UpdatedRecord(cfg, env).thumbnailUrl.value) ==
      Some(Url("http", "localhost:" + cfg.port, "/" + AssetPath(NameFor(env))))
    ensures FirstSlash(AssetPath(NameFor(env))) == 6 && AssetPath(NameFor(env))[7..] == NameFor(env)
    ensures |NameFor(env)| == 48 && Decode(NameFor(env)[..44]) == Some(env.random)
  {
    var extension := ThumbnailExtensions[env.file.value.mediaType.value];
    assert extension in ThumbnailExtensions.Values;
    AssetNameShape(env.random, extension);
    AssetPathInAssetsDir(NameFor(env));
    ThumbnailUrlNamesAsset(cfg.port, NameFor(env));
  }
}
