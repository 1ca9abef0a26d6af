/**
 * `handlerUploadVideo` and `validateVideoMediaType` (handler_upload_video.go): the video is
 * spilled to a temporary file, put into S3 under a random key, and the record's video URL
 * is pointed at the object.
 */
module UploadVideo {
  import opened Wrappers
  import opened Base64
  import opened Urls
  import opened Records

  /** The request body cap, `maxMemory = 1 << 30` bytes. */
  const MaxUploadBytes: nat := 0x4000_0000

  /** The one accepted video type. Its "extension" is the MIME type itself, so it ends up in the key. */
  const VideoMediaType: string := "video/mp4"

  /** Accepts exactly `video/mp4`, answering with that same string. */
  function ValidateVideoMediaType(mediaType: string): (r: Result<string>)
    ensures r.Ok? <==> mediaType == VideoMediaType
    ensures r.Ok? ==> r.value == mediaType
  {
    if mediaType == "video/mp4" then Ok("video/mp4") else Err("invalid media type")
  }

  /** The public URL of an object in a bucket of a region. */
  function S3Url(bucket: string, region: string, key: string): string {
    "https://" + bucket + ".s3." + region + ".amazonaws.com/" + key
  }

  /**
   * The record the handler writes back, rebuilt field by field (lines 126-137). For the owner
   * it is the fetched record with only the id, the video URL and the update time replaced.
   */
  function WithVideoUrl(video: Video, videoId: Uuid, userId: Uuid, url: string, now: Timestamp): (r: Video)
    ensures userId == video.userId ==> r == video.(id := videoId, videoUrl := Some(url), updatedAt := now)
  {
    Video(
      id := videoId,
      createdAt := video.createdAt,
      updatedAt := now,
      thumbnailUrl := video.thumbnailUrl,
      videoUrl := Some(url),
      title := video.title,
      description := video.description,
      userId := userId)
  }

  /** What the collaborators report to one call of the handler, in the order it consults them. */
  datatype VideoEnv = VideoEnv(
    videoId: Option<Uuid>,     // uuid.Parse of the videoID path value
    token: Option<string>,     // auth.GetBearerToken
    jwtUser: Option<Uuid>,     // auth.ValidateJWT(token, cfg.jwtSecret)
    bodySize: nat,             // bytes r.ParseMultipartForm reads from the body
    formParsed: bool,          // r.ParseMultipartForm, for a body within the cap
    file: Option<Part>,        // r.FormFile("video")
    fetched: Option<Video>,    // cfg.db.GetVideo(videoID)
    tempCreated: bool,         // os.CreateTemp
    copied: bool,              // io.Copy(tempFile, file)
    rewound: bool,             // tempFile.Seek(0, io.SeekStart)
    random: RandomPath,        // the bytes rand.Read produced
    randomOk: bool,            // rand.Read reported no error
    putOk: bool,               // cfg.s3Client.PutObject reported no error
    now: Timestamp,            // time.Now()
    updated: bool)             // cfg.db.UpdateVideo reported no error

  /** The path id parsed and the bearer token was found and validated. */
  predicate Authenticated(env: VideoEnv) {
    env.videoId.Some? && env.token.Some? && env.jwtUser.Some?
  }

  /** The form parsed within the cap and has a `video` part. */
  predicate HasPart(env: VideoEnv) {
    Authenticated(env) && env.bodySize <= MaxUploadBytes && env.formParsed && env.file.Some?
  }

  /** The request gets as far as comparing the record's owner with the caller. */
  predicate ReachesOwnerCheck(env: VideoEnv) {
    HasPart(env) && env.file.value.mediaType.Some? && env.fetched.Some?
  }

  /** The caller owns the video, and the declared media type is accepted. */
  predicate Validated(env: VideoEnv) {
    ReachesOwnerCheck(env) && env.fetched.value.userId == env.jwtUser.value
    && ValidateVideoMediaType(env.file.value.mediaType.value).Ok?
  }

  /** Every step up to and including the S3 put succeeded. */
  predicate Stored(env: VideoEnv) {
    Validated(env) && env.tempCreated && env.copied && env.rewound && env.randomOk && env.putOk
  }

  /** The key under which the handler stores the object for these random bytes. */
  function KeyFor(random: seq<Byte>): string {
    EncodedName(Encode(random), VideoMediaType)
  }

  /** The S3 put the handler makes for this configuration and these collaborators. */
  function VideoObject(cfg: Config, env: VideoEnv): Effect {
    ObjectPut(cfg.s3Bucket, KeyFor(env.random), VideoMediaType)
  }

  /** The record the handler writes back: the fetched one, now pointing at the stored object. */
  function UpdatedRecord(cfg: Config, env: VideoEnv): Video
    requires env.videoId.Some? && env.fetched.Some?
  {
    env.fetched.value.(
      id := env.videoId.value,
      videoUrl := Some(S3Url(cfg.s3Bucket, cfg.s3Region, KeyFor(env.random))),
      updatedAt := env.now)
  }

  /**
   * The handler (lines 23-57 and the deferred close of line 57): cap the body, parse the id,
   * authenticate, parse the form and take the `video` part, then serve it; once that returns,
   * the part is closed. Go runs a function's `defer`s when it returns, latest first; here each
   * method called by the handler ends at the point where one of them runs.
   */
  method HandleUploadVideo(cfg: Config, env: VideoEnv) returns (status: int, response: Option<Video>, trace: seq<Effect>)
    // status codes
    ensures status in {StatusOK, StatusBadRequest, StatusUnauthorized, StatusInternalServerError}
    ensures status == StatusBadRequest <==> env.videoId.None?
    ensures status == StatusUnauthorized <==>
      env.videoId.Some? && (env.token.None? || env.jwtUser.None?
        || (ReachesOwnerCheck(env) && env.fetched.value.userId != env.jwtUser.value))
    ensures status == StatusOK <==> Stored(env) && env.updated
    ensures response == if status == StatusOK then Some(UpdatedRecord(cfg, env)) else None
    // the body is capped before anything reads it; a longer body stops the handler with no effect
    ensures |trace| > 0 && trace[0] == BodyLimited(MaxUploadBytes)
    ensures Authenticated(env) && env.bodySize > MaxUploadBytes ==>
      status == StatusInternalServerError && trace == [BodyLimited(MaxUploadBytes)]
    // nothing is spilled or stored before validation, and the spill comes first
    ensures TempCreated in trace <==> Validated(env) && env.tempCreated
    ensures Puts(trace) <==> Validated(env) && env.tempCreated && env.copied && env.rewound && env.randomOk
    ensures PutsAfter(trace, VideoObject(cfg, env), TempCreated)
    ensures !(Validated(env) && env.tempCreated) ==>
      trace == if HasPart(env) then [BodyLimited(MaxUploadBytes), UploadOpened, UploadClosed]
               else [BodyLimited(MaxUploadBytes)]
    ensures Validated(env) && env.tempCreated ==>
      trace == [BodyLimited(MaxUploadBytes), UploadOpened, TempCreated]
               + SpillEffects(env, VideoObject(cfg, env), UpdatedRecord(cfg, env))
               + [TempClosed, TempRemoved, UploadClosed]
    // the spill file and the uploaded part are released on every path that acquired them
    ensures TempCreated in trace ==>
      |trace| >= 6 && trace[|trace| - 3..] == [TempClosed, TempRemoved, UploadClosed]
    ensures UploadOpened in trace ==> trace[|trace| - 1] == UploadClosed
    // the record is updated only after the put succeeded, and only its video URL changes
    ensures Updates(trace) <==> Stored(env)
    ensures Stored(env) ==> UpdatesAfter(trace, UpdatedRecord(cfg, env), VideoObject(cfg, env))
  {
    response := None;
    trace := [BodyLimited(MaxUploadBytes)];
    var failed := Authenticate(env.videoId, env.token, env.jwtUser);
    if failed.Some? {
      return failed.value, response, trace;
    }
    // ParseMultipartForm reads through the capped reader, so reading past the cap fails it.
    if env.bodySize > MaxUploadBytes || !env.formParsed {
      return StatusInternalServerError, response, trace;
    }
    if env.file.None? {
      return StatusInternalServerError, response, trace;
    }
    var served: seq<Effect>;
    status, response, served := ServeUpload(cfg, env);
    // defer file.Close()
    trace := Served(served);
    ClosedAfterServing(cfg, env, served);
  }

  /** The part's opening and closing around the spill file's life, in closed form. */
  lemma ClosedForm(spill: seq<Effect>)
    ensures Served([TempCreated] + spill + [TempClosed, TempRemoved])
         == [BodyLimited(MaxUploadBytes), UploadOpened, TempCreated] + spill + [TempClosed, TempRemoved, UploadClosed]
  {
  }

  /** The handler's trace once the part was handed out: the cap, the part, what serving did, the close. */
  function Served(served: seq<Effect>): seq<Effect> {
    [BodyLimited(MaxUploadBytes), UploadOpened] + served + [UploadClosed]
  }

  /**
   * The trace `ServeUpload` leaves, opened by the cap and the part and closed by the part's
   * deferred close, keeps `ServeUpload`'s promises and gains the handler's.
   */
  lemma ClosedAfterServing(cfg: Config, env: VideoEnv, served: seq<Effect>)
    requires HasPart(env)
    requires !(Validated(env) && env.tempCreated) ==> served == []
    requires Validated(env) && env.tempCreated ==>
      served == [TempCreated] + SpillEffects(env, VideoObject(cfg, env), UpdatedRecord(cfg, env)) + [TempClosed, TempRemoved]
    requires Validated(env) && env.tempCreated ==>
      |served| >= 4 && served[0] == TempCreated && served[|served| - 2..] == [TempClosed, TempRemoved]
    requires Puts(served) <==> Validated(env) && env.tempCreated && env.copied && env.rewound && env.randomOk
    requires PutsAfter(served, VideoObject(cfg, env), TempCreated)
    requires Updates(served) <==> Stored(env)
    requires Stored(env) ==> UpdatesAfter(served, UpdatedRecord(cfg, env), VideoObject(cfg, env))
    ensures TempCreated in Served(served) <==> Validated(env) && env.tempCreated
    ensures Puts(Served(served)) <==> Validated(env) && env.tempCreated && env.copied && env.rewound && env.randomOk
    ensures PutsAfter(Served(served), VideoObject(cfg, env), TempCreated)
    ensures !(Validated(env) && env.tempCreated) ==>
      Served(served) == [BodyLimited(MaxUploadBytes), UploadOpened, UploadClosed]
    ensures Validated(env) && env.tempCreated ==>
      Served(served) == [BodyLimited(MaxUploadBytes), UploadOpened, TempCreated]
                        + SpillEffects(env, VideoObject(cfg, env), UpdatedRecord(cfg, env))
                        + [TempClosed, TempRemoved, UploadClosed]
    ensures TempCreated in Served(served) ==>
      |Served(served)| >= 6 && Served(served)[|Served(served)| - 3..] == [TempClosed, TempRemoved, UploadClosed]
    ensures Served(served)[|Served(served)| - 1] == UploadClosed
    ensures Updates(Served(served)) <==> Stored(env)
    ensures Stored(env) ==> UpdatesAfter(Served(served), UpdatedRecord(cfg, env), VideoObject(cfg, env))
  {
    var head := [BodyLimited(MaxUploadBytes), UploadOpened];
    var trace := Served(served);
    assert trace == head + served + [UploadClosed];
    if Validated(env) && env.tempCreated {
      FramedPuts(head, served, [UploadClosed], VideoObject(cfg, env), TempCreated);
      FramedUpdates(head, served, [UploadClosed], UpdatedRecord(cfg, env), VideoObject(cfg, env));
      assert trace[2] == TempCreated;
      var n := |trace|;
      assert trace[n - 3] == served[|served| - 2] && trace[n - 2] == served[|served| - 1];
      assert trace[n - 3..] == [TempClosed, TempRemoved, UploadClosed];
      ClosedForm(SpillEffects(env, VideoObject(cfg, env), UpdatedRecord(cfg, env)));
    } else {
      assert trace == [BodyLimited(MaxUploadBytes), UploadOpened, UploadClosed];
    }
  }

  /** The put of the spill file under the key drawn from `env.random`. */
  function SpilledObject(cfg: Config, env: VideoEnv, mediaType: string, extension: string): Effect {
    ObjectPut(cfg.s3Bucket, EncodedName(Encode(env.random), extension), mediaType)
  }

  /** The record pointing at the object `SpilledObject` stores. */
  function SpilledRecord(cfg: Config, env: VideoEnv, videoId: Uuid, userId: Uuid, video: Video, extension: string): Video {
    WithVideoUrl(video, videoId, userId, S3Url(cfg.s3Bucket, cfg.s3Region, EncodedName(Encode(env.random), extension)), env.now)
  }

  /**
   * The effects of publishing the spill file, in order: the copy into it, the rewind once the
   * copy succeeded, the one put once the rewind and the random draw succeeded, and the one
   * update once the put succeeded. Nothing else, and nothing twice.
   */
  function SpillEffects(env: VideoEnv, put: Effect, record: Video): seq<Effect> {
    [TempWritten]
    + (if env.copied then [TempRewound] else [])
    + (if env.copied && env.rewound && env.randomOk then [put] else [])
    + (if env.copied && env.rewound && env.randomOk && env.putOk then [VideoUpdated(record)] else [])
  }

  /**
   * Lines 91-144: copy the part into the spill file, rewind it, draw the key, put the object
   * and write the record back. The caller owns the spill file and releases it afterwards.
   */
  method PublishSpilled(cfg: Config, env: VideoEnv, videoId: Uuid, userId: Uuid, video: Video,
                        mediaType: string, extension: string)
    returns (status: int, response: Option<Video>, trace: seq<Effect>)
    ensures status == StatusOK || status == StatusInternalServerError
    ensures status == StatusOK <==> env.copied && env.rewound && env.randomOk && env.putOk && env.updated
    ensures response == if status == StatusOK then Some(SpilledRecord(cfg, env, videoId, userId, video, extension)) else None
    ensures trace == SpillEffects(env, SpilledObject(cfg, env, mediaType, extension),
                                  SpilledRecord(cfg, env, videoId, userId, video, extension))
    ensures |trace| > 0 && trace[0] == TempWritten
    ensures !env.copied ==> trace == [TempWritten]
    ensures env.copied ==> |trace| >= 2 && trace[1] == TempRewound
    ensures Puts(trace) <==> env.copied && env.rewound && env.randomOk
    ensures Updates(trace) <==> env.copied && env.rewound && env.randomOk && env.putOk
    ensures PutsAfter(trace, SpilledObject(cfg, env, mediaType, extension), TempRewound)
    ensures UpdatesAfter(trace, SpilledRecord(cfg, env, videoId, userId, video, extension),
                         SpilledObject(cfg, env, mediaType, extension))
  {
    response := None;
    trace := [TempWritten];
    if !env.copied {
      return StatusInternalServerError, response, trace;
    }
    trace := trace + [TempRewound];
    if !env.rewound {
      return StatusInternalServerError, response, trace;
    }
    var encodedPath := Encode(env.random);
    if !env.randomOk {
      return StatusInternalServerError, response, trace;
    }
    var objectKey := EncodedName(encodedPath, extension);
    trace := trace + [ObjectPut(cfg.s3Bucket, objectKey, mediaType)];
    assert trace[1] == TempRewound && EarlierIn(trace, 2, TempRewound) && trace[2].ObjectPut?;
    if !env.putOk {
      return StatusInternalServerError, response, trace;
    }
    var newVideoUrl := S3Url(cfg.s3Bucket, cfg.s3Region, objectKey);
    var updatedVideo := WithVideoUrl(video, videoId, userId, newVideoUrl, env.now);
    trace := trace + [VideoUpdated(updatedVideo)];
    assert trace[1] == TempRewound && EarlierIn(trace, 2, TempRewound);
    assert trace[2] == ObjectPut(cfg.s3Bucket, objectKey, mediaType) && EarlierIn(trace, 3, trace[2]);
    assert trace[3].VideoUpdated?;
    if !env.updated {
      return StatusInternalServerError, response, trace;
    }
    status, response := StatusOK, Some(updatedVideo);
  }

  /**
   * Lines 59-89 and the deferred calls of lines 88-89: read the media type, fetch the record,
   * check the owner and the type, create the spill file and hand it to `PublishSpilled`;
   * once that returns, the spill file is closed and then removed.
   */
  method ServeUpload(cfg: Config, env: VideoEnv) returns (status: int, response: Option<Video>, trace: seq<Effect>)
    requires HasPart(env)
    ensures status in {StatusOK, StatusUnauthorized, StatusInternalServerError}
    ensures status == StatusUnauthorized <==> ReachesOwnerCheck(env) && env.fetched.value.userId != env.jwtUser.value
    ensures status == StatusOK <==> Stored(env) && env.updated
    ensures response == if status == StatusOK then Some(UpdatedRecord(cfg, env)) else None
    ensures !(Validated(env) && env.tempCreated) ==> trace == []
    ensures Validated(env) && env.tempCreated ==>
      trace == [TempCreated] + SpillEffects(env, VideoObject(cfg, env), UpdatedRecord(cfg, env)) + [TempClosed, TempRemoved]
    ensures Validated(env) && env.tempCreated ==>
      |trace| >= 4 && trace[0] == TempCreated && trace[|trace| - 2..] == [TempClosed, TempRemoved]
    ensures Puts(trace) <==> Validated(env) && env.tempCreated && env.copied && env.rewound && env.randomOk
    ensures PutsAfter(trace, VideoObject(cfg, env), TempCreated)
    ensures Updates(trace) <==> Stored(env)
    ensures Stored(env) ==> UpdatesAfter(trace, UpdatedRecord(cfg, env), VideoObject(cfg, env))
  {
    response := None;
    trace := [];
    var videoId, userId, part := env.videoId.value, env.jwtUser.value, env.file.value;
    if part.mediaType.None? {
      return StatusInternalServerError, response, trace;
    }
    var mediaType := part.mediaType.value;
    if env.fetched.None? {
      return StatusInternalServerError, response, trace;
    }
    var video := env.fetched.value;
    if video.userId != userId {
      return StatusUnauthorized, response, trace;
    }
    var extension := ValidateVideoMediaType(mediaType);
    if extension.Err? {
      return StatusInternalServerError, response, trace;
    }
    if !env.tempCreated {
      return StatusInternalServerError, response, trace;
    }
    var published: seq<Effect>;
    status, response, published := PublishSpilled(cfg, env, videoId, userId, video, mediaType, extension.value);
    // defer os.Remove(tempFile.Name()); defer tempFile.Close(): the later defer runs first
    trace := [TempCreated] + published + [TempClosed, TempRemoved];
    assert SpilledObject(cfg, env, mediaType, extension.value) == VideoObject(cfg, env);
    assert SpilledRecord(cfg, env, videoId, userId, video, extension.value) == UpdatedRecord(cfg, env);
    FramedPuts([TempCreated], published, [TempClosed, TempRemoved], VideoObject(cfg, env), TempRewound);
    FramedUpdates([TempCreated], published, [TempClosed, TempRemoved], UpdatedRecord(cfg, env), VideoObject(cfg, env));
    PutsAfterHead(TempCreated, published, [TempClosed, TempRemoved], VideoObject(cfg, env), TempRewound);
  }

  /**
   * For the 32 random bytes, the key (line 111) is 44 base64url characters followed by
   * `video/mp4`. The characters before the MIME type decode back to the bytes, and the key's
   * first '/' is the one inside `video/mp4`.
   */
  lemma VideoKeyShape(random: RandomPath)
    ensures |KeyFor(random)| == 53
    ensures Decode(KeyFor(random)[..44]) == Some(random)
    ensures KeyFor(random)[44..] == VideoMediaType
    ensures FirstSlash(KeyFor(random)) == 49
  {
    var key := KeyFor(random);
    EncodeOf32(random);
    DecodeEncode(random);
    EncodeHasNoSlash(random);
    FirstSlashAfter(Encode(random), VideoMediaType);
    assert FirstSlash(VideoMediaType) == 5;
    assert key[..44] == Encode(random);
  }

  /** Different random bytes give different keys. */
  lemma KeyForInjective(a: RandomPath, b: RandomPath)
    requires KeyFor(a) == KeyFor(b)
    ensures a == b
  {
    EncodeOf32(a);
    EncodeOf32(b);
    assert Encode(a) == KeyFor(a)[..44];
    assert Encode(b) == KeyFor(b)[..44];
    EncodeInjective(a, b);
  }

  /**
   * The URL written into the record (line 125) names the bucket's virtual host in the
   * region, and the key as its path, when neither the bucket nor the region holds a '/'.
   */
  lemma S3UrlNamesKey(bucket: string, region: string, key: string)
    requires '/' !in bucket && '/' !in region
    ensures ParseUrl(S3Url(bucket, region, key)) ==
      Some(Url("https", bucket + ".s3." + region + ".amazonaws.com", "/" + key))
  {
    var host := bucket + ".s3." + region + ".amazonaws.com";
    NoSlashJoin(bucket, ".s3.");
    NoSlashJoin(bucket + ".s3.", region);
    NoSlashJoin(bucket + ".s3." + region, ".amazonaws.com");
    ParseHttps(host, "/" + key);
    S3UrlSplit(bucket, region, key);
  }

  /**
   * The video URL of the record the handler writes back points at the object it put: the
   * bucket's virtual host in the configured region, with the put's key as the path.
   */
  lemma RecordNamesObject(cfg: Config, env: VideoEnv)
    requires '/' !in cfg.s3Bucket && '/' !in cfg.s3Region
    requires env.videoId.Some? && env.fetched.Some?
    ensures UpdatedRecord(cfg, env).videoUrl.Some?
    ensures ParseUrl(UpdatedRecord(cfg, env).videoUrl.value) ==
      Some(Url("https", cfg.s3Bucket + ".s3." + cfg.s3Region + ".amazonaws.com", "/" + VideoObject(cfg, env).key))
  {
    S3UrlNamesKey(cfg.s3Bucket, cfg.s3Region, KeyFor(env.random));
  }

  /** The S3 URL is `https://`, then the bucket's virtual host, then `/` and the key. */
  lemma S3UrlSplit(bucket: string, region: string, key: string)
    ensures S3Url(bucket, region, key) ==
      "https://" + (bucket + ".s3." + region + ".amazonaws.com") + ("/" + key)
  {
    var h, a := "https://", ".amazonaws.com";
    assert ".amazonaws.com/" == a + "/";
    Associate(h + bucket + ".s3." + region, a, "/");
    Associate(h + bucket + ".s3." + region + a, "/", key);
    Associate(h, bucket, ".s3.");
    Associate(h, bucket + ".s3.", region);
    Associate(h, bucket + ".s3." + region, a);
  }
}
