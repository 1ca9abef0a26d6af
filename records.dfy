/**
 * The values the two upload handlers share: the video metadata record, the process
 * configuration they read, the multipart file part they receive, the HTTP status codes
 * they answer with, and the effects a call has on the world outside the handler.
 */
module Records {
  import opened Wrappers
  import opened Base64

  /** The 32 bytes `rand.Read` writes into the `make([]byte, 32)` buffer. */
  type RandomPath = s: seq<Byte> | |s| == 32 witness seq(32, _ => 0)

  /**
   * The name both handlers give an upload (`fmt.Sprintf("%v%v", ...)` of the encoded random
   * bytes and the extension): the S3 object key, or the asset's file name.
   */
  function EncodedName(encodedPath: string, extension: string): (name: string)
    ensures |name| == |encodedPath| + |extension|
    ensures name[..|encodedPath|] == encodedPath && name[|encodedPath|..] == extension
  {
    encodedPath + extension
  }

  /** A UUID, in its canonical text form. */
  type Uuid = string

  /** A point in time, as `time.Now()` reports it; the model never inspects it. */
  type Timestamp = int

  /** The video metadata record (`database.Video`, with its `CreateVideoParams` flattened). */
  datatype Video = Video(
    id: Uuid,
    createdAt: Timestamp,
    updatedAt: Timestamp,
    thumbnailUrl: Option<string>,
    videoUrl: Option<string>,
    title: string,
    description: string,
    userId: Uuid)

  /** The configuration fields the handlers read (the JWT secret is only passed to the opaque validator). */
  datatype Config = Config(port: string, s3Bucket: string, s3Region: string)

  /**
   * The file part `r.FormFile` returns: its `Content-Type` header as `mime.ParseMediaType`
   * reads it, None when that header does not parse.
   */
  datatype Part = Part(mediaType: Option<string>)

  const StatusOK := 200
  const StatusBadRequest := 400
  const StatusUnauthorized := 401
  const StatusInternalServerError := 500

  /**
   * The checks both handlers open with: the path id must parse (else 400), and a bearer token
   * must be present and validate (else 401). The status of the first check that fails, or None
   * when the caller is authenticated.
   */
  function Authenticate(videoId: Option<Uuid>, token: Option<string>, jwtUser: Option<Uuid>): (failed: Option<int>)
    ensures failed.None? <==> videoId.Some? && token.Some? && jwtUser.Some?
    ensures failed == Some(StatusBadRequest) <==> videoId.None?
    ensures failed == Some(StatusUnauthorized) <==> videoId.Some? && (token.None? || jwtUser.None?)
  {
    if videoId.None? then Some(StatusBadRequest)
    else if token.None? then Some(StatusUnauthorized)
    else if jwtUser.None? then Some(StatusUnauthorized)
    else None
  }

  /**
   * What one handler call does outside itself, in order. A creation is recorded only when it
   * succeeded (a failed create leaves nothing behind); every other entry is recorded when the
   * call is made, whatever its outcome.
   */
  datatype Effect =
    | BodyLimited(limit: nat)          // http.MaxBytesReader wraps the request body
    | UploadOpened                     // r.FormFile handed out the uploaded part
    | UploadClosed                     // the part is closed
    | TempCreated                      // os.CreateTemp made the spill file
    | TempWritten                      // io.Copy from the part into the spill file
    | TempRewound                      // the spill file's offset is reset to 0
    | ObjectPut(bucket: string, key: string, contentType: string)  // S3 PutObject from the spill file
    | TempClosed                       // the spill file is closed
    | TempRemoved                      // the spill file is removed
    | AssetCreated(path: string)       // os.Create made the asset file
    | AssetWritten(path: string)       // io.Copy from the part into the asset file
    | VideoUpdated(record: Video)      // cfg.db.UpdateVideo with the new record

  /** Effect `a` happens in `t` before position `j`. */
  predicate EarlierIn(t: seq<Effect>, j: int, a: Effect) {
    exists i :: 0 <= i < j && i < |t| && t[i] == a
  }

  /** Position `i` of `t` sits at position `|pre| + i` of `pre + t + post`. */
  lemma MiddleIndex(pre: seq<Effect>, t: seq<Effect>, post: seq<Effect>, i: int)
    requires 0 <= i < |t|
    ensures (pre + t + post)[|pre| + i] == t[i]
  {
  }

  /** What comes before position `j` of `t` comes before its position in `pre + t + post`. */
  lemma EarlierShift(pre: seq<Effect>, t: seq<Effect>, post: seq<Effect>, j: int, a: Effect)
    requires 0 <= j < |t| && EarlierIn(t, j, a)
    ensures EarlierIn(pre + t + post, |pre| + j, a)
  {
    var i :| 0 <= i < j && i < |t| && t[i] == a;
    MiddleIndex(pre, t, post, i);
  }

  /** `t` holds an S3 put. */
  predicate Puts(t: seq<Effect>) {
    exists j :: 0 <= j < |t| && t[j].ObjectPut?
  }

  /** `t` holds a record update. */
  predicate Updates(t: seq<Effect>) {
    exists j :: 0 <= j < |t| && t[j].VideoUpdated?
  }

  /** Every S3 put in `t` is `put`, made after an `a`. */
  predicate PutsAfter(t: seq<Effect>, put: Effect, a: Effect) {
    forall j :: 0 <= j < |t| && t[j].ObjectPut? ==> t[j] == put && EarlierIn(t, j, a)
  }

  /** Every record update in `t` writes `record`, after an `a`. */
  predicate UpdatesAfter(t: seq<Effect>, record: Video, a: Effect) {
    forall j :: 0 <= j < |t| && t[j].VideoUpdated? ==> t[j] == VideoUpdated(record) && EarlierIn(t, j, a)
  }

  /** `e` stores something (an S3 object or an asset file) or updates a record. */
  predicate Storing(e: Effect) {
    e.ObjectPut? || e.AssetCreated? || e.AssetWritten? || e.VideoUpdated?
  }

  /** `s` neither stores anything nor updates a record. */
  predicate Quiet(s: seq<Effect>) {
    forall j :: 0 <= j < |s| ==> !Storing(s[j])
  }

  /** Around effects that store nothing, every storing effect of `pre + t + post` is one of `t`'s. */
  lemma StoringInside(pre: seq<Effect>, t: seq<Effect>, post: seq<Effect>, j: int)
    requires Quiet(pre) && Quiet(post)
    requires 0 <= j < |pre + t + post| && Storing((pre + t + post)[j])
    ensures |pre| <= j < |pre| + |t| && (pre + t + post)[j] == t[j - |pre|]
  {
  }

  /** `t` creates an asset file. */
  predicate Creates(t: seq<Effect>) {
    exists j :: 0 <= j < |t| && t[j].AssetCreated?
  }

  /** Every asset file `t` creates or writes is the one at `path`. */
  predicate AssetsAt(t: seq<Effect>, path: string) {
    forall j :: 0 <= j < |t| && (t[j].AssetCreated? || t[j].AssetWritten?) ==> t[j].path == path
  }

  /**
   * Effects that neither put nor update, placed around `t`, change nothing about its puts:
   * whether there are any, what they are, and what comes before them.
   */
  lemma FramedPuts(pre: seq<Effect>, t: seq<Effect>, post: seq<Effect>, put: Effect, a: Effect)
    requires Quiet(pre) && Quiet(post)
    ensures Puts(pre + t + post) <==> Puts(t)
    ensures PutsAfter(t, put, a) ==> PutsAfter(pre + t + post, put, a)
  {
    FramedAnyPut(pre, t, post);
    if PutsAfter(t, put, a) {
      FramedPutsAfter(pre, t, post, put, a);
    }
  }

  /** Whether there is an S3 put is the same with or without quiet effects around. */
  lemma FramedAnyPut(pre: seq<Effect>, t: seq<Effect>, post: seq<Effect>)
    requires Quiet(pre) && Quiet(post)
    ensures Puts(pre + t + post) <==> Puts(t)
  {
    var u := pre + t + post;
    if Puts(u) {
      var j :| 0 <= j < |u| && u[j].ObjectPut?;
      StoringInside(pre, t, post, j);
    }
    if Puts(t) {
      var j :| 0 <= j < |t| && t[j].ObjectPut?;
      MiddleIndex(pre, t, post, j);
    }
  }

  /** Quiet effects around `t` keep every put of `t` as it was, and after an `a`. */
  lemma FramedPutsAfter(pre: seq<Effect>, t: seq<Effect>, post: seq<Effect>, put: Effect, a: Effect)
    requires Quiet(pre) && Quiet(post)
    requires PutsAfter(t, put, a)
    ensures PutsAfter(pre + t + post, put, a)
  {
    var u := pre + t + post;
    forall j | 0 <= j < |u| && u[j].ObjectPut?
      ensures u[j] == put && EarlierIn(u, j, a)
    {
      StoringInside(pre, t, post, j);
      EarlierShift(pre, t, post, j - |pre|, a);
    }
  }

  /**
   * Effects that neither put nor update, placed around `t`, change nothing about its record
   * updates: whether there are any, what they write, and what comes before them.
   */
  lemma FramedUpdates(pre: seq<Effect>, t: seq<Effect>, post: seq<Effect>, record: Video, a: Effect)
    requires Quiet(pre) && Quiet(post)
    ensures Updates(pre + t + post) <==> Updates(t)
    ensures UpdatesAfter(t, record, a) ==> UpdatesAfter(pre + t + post, record, a)
  {
    FramedAnyUpdate(pre, t, post);
    if UpdatesAfter(t, record, a) {
      FramedUpdatesAfter(pre, t, post, record, a);
    }
  }

  /** Whether there is a record update is the same with or without quiet effects around. */
  lemma FramedAnyUpdate(pre: seq<Effect>, t: seq<Effect>, post: seq<Effect>)
    requires Quiet(pre) && Quiet(post)
    ensures Updates(pre + t + post) <==> Updates(t)
  {
    var u := pre + t + post;
    if Updates(u) {
      var j :| 0 <= j < |u| && u[j].VideoUpdated?;
      StoringInside(pre, t, post, j);
    }
    if Updates(t) {
      var j :| 0 <= j < |t| && t[j].VideoUpdated?;
      MiddleIndex(pre, t, post, j);
    }
  }

  /** Quiet effects around `t` keep every update of `t` as it was, and after an `a`. */
  lemma FramedUpdatesAfter(pre: seq<Effect>, t: seq<Effect>, post: seq<Effect>, record: Video, a: Effect)
    requires Quiet(pre) && Quiet(post)
    requires UpdatesAfter(t, record, a)
    ensures UpdatesAfter(pre + t + post, record, a)
  {
    var u := pre + t + post;
    forall j | 0 <= j < |u| && u[j].VideoUpdated?
      ensures u[j] == VideoUpdated(record) && EarlierIn(u, j, a)
    {
      StoringInside(pre, t, post, j);
      EarlierShift(pre, t, post, j - |pre|, a);
    }
  }

  /**
   * Effects that neither store nor update, placed around `t`, change nothing about its asset
   * files: whether one is created, and where they are.
   */
  lemma FramedAssets(pre: seq<Effect>, t: seq<Effect>, post: seq<Effect>, path: string)
    requires Quiet(pre) && Quiet(post)
    ensures Creates(pre + t + post) <==> Creates(t)
    ensures AssetsAt(t, path) ==> AssetsAt(pre + t + post, path)
  {
    FramedAnyCreate(pre, t, post);
    if AssetsAt(t, path) {
      FramedAssetsAt(pre, t, post, path);
    }
  }

  /** Whether an asset file is created is the same with or without quiet effects around. */
  lemma FramedAnyCreate(pre: seq<Effect>, t: seq<Effect>, post: seq<Effect>)
    requires Quiet(pre) && Quiet(post)
    ensures Creates(pre + t + post) <==> Creates(t)
  {
    var u := pre + t + post;
    if Creates(u) {
      var j :| 0 <= j < |u| && u[j].AssetCreated?;
      StoringInside(pre, t, post, j);
    }
    if Creates(t) {
      var j :| 0 <= j < |t| && t[j].AssetCreated?;
      MiddleIndex(pre, t, post, j);
    }
  }

  /** Quiet effects around `t` leave every asset file of `t` at `path`. */
  lemma FramedAssetsAt(pre: seq<Effect>, t: seq<Effect>, post: seq<Effect>, path: string)
    requires Quiet(pre) && Quiet(post)
    requires AssetsAt(t, path)
    ensures AssetsAt(pre + t + post, path)
  {
    var u := pre + t + post;
    forall j | 0 <= j < |u| && (u[j].AssetCreated? || u[j].AssetWritten?)
      ensures u[j].path == path
    {
      StoringInside(pre, t, post, j);
    }
  }

  /**
   * Once every put in `t` is `put`, every put in `[a] + t + post` comes after that leading `a`,
   * when `a` and `post` put nothing.
   */
  lemma PutsAfterHead(a: Effect, t: seq<Effect>, post: seq<Effect>, put: Effect, b: Effect)
    requires !a.ObjectPut? && Quiet(post)
    requires PutsAfter(t, put, b)
    ensures PutsAfter([a] + t + post, put, a)
  {
    var u := [a] + t + post;
    forall j | 0 <= j < |u| && u[j].ObjectPut?
      ensures u[j] == put && EarlierIn(u, j, a)
    {
      assert 1 <= j <= |t| && u[j] == t[j - 1];
      assert u[0] == a;
    }
  }
}
