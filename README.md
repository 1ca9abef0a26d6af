# Upload handlers of the video-sharing server, in Dafny

This project models the two upload handlers of the server's HTTP API:

- **`handlerUploadVideo`**: an owner uploads a video file for one of their video records. The handler does the following:
  - caps the request body at 1 GiB;
  - authenticates the caller and checks that they own the record;
  - accepts only `video/mp4`;
  - spills the upload into a temporary file and puts that file into an S3 bucket under a random key;
  - writes back the record with its video URL set to the object's `https://<bucket>.s3.<region>.amazonaws.com/<key>` address;
  - releases the temporary file and the uploaded part on every path that acquired them.
- **`handlerUploadThumbnail`**: the same flow for a PNG or JPEG thumbnail, with these differences:
  - the image is copied into a file under the local `assets` directory;
  - the record's thumbnail URL becomes `http://localhost:<port>/assets/<name>`.

There are six modules:

- `Wrappers`: `Option` and `Result`.
- `Base64`: the padded base64url encoding (section 5 of RFC 4648, Go's `base64.URLEncoding`) that turns the 32 random bytes into a name. It includes a strict decoder, and the two round trips are proved.
- `Urls`: a reference reading of `http://` and `https://` URLs into scheme, host and path, and the position of a text's first `/`. These are used to state what the built keys, paths and URLs denote.
- `Records`: the record, the configuration, the uploaded part, the status codes, and the `Effect` trace. The trace lists what a call does outside itself, in order: spill-file creation, writes, closes and removal; S3 puts; asset files; record updates. It also holds predicates and framing lemmas over traces.
- `UploadVideo` and `UploadThumbnail`: one module per handler file.

Each handler is a method over an environment value. The environment holds what every collaborator reports: the parsed id, the token, the JWT result, the form, the part and its media type, the fetched record, the random bytes, and whether each file, S3 or database call succeeds. The method returns the status, the JSON response and the effect trace.

A Go `defer` runs when its function returns, latest first. The model splits each handler at its `defer`s. The outer method calls the inner one and then appends the deferred effects. So `HandleUploadVideo` wraps `ServeUpload` between `UploadOpened` and `UploadClosed`. `ServeUpload` in turn wraps `PublishSpilled` between `TempCreated` and `TempClosed, TempRemoved`.

In several places the code departs from common HTTP convention, which would answer 403, 415, 404 and 413 for the first two cases below. The model follows the code:

- a caller who does not own the video gets 401, not a separate "forbidden" answer;
- an unsupported media type, a missing record and an over-long body all get 500;
- the thumbnail handler has no body cap, and it never closes the uploaded part or the file it creates;
- both handlers check the `rand.Read` error only after the bytes have been encoded;
- the video key ends in `video/mp4`, the "extension" `validateVideoMediaType` returns, so it contains a `/`.

## Model

| member | source | states |
|---|---|---|
| Records.Authenticate | handler_upload_video.go:26-43 | 400 iff the id does not parse; 401 iff it parses and the token is missing or does not validate; no failure iff all three succeed |
| UploadVideo.ValidateVideoMediaType | handler_upload_video.go:147-152 | accepts exactly `video/mp4` (both directions), and the accepted "extension" is the media type itself |
| UploadVideo.HandleUploadVideo | handler_upload_video.go:23-57 | status 400 iff the id does not parse. 401 iff the token is missing or invalid, or the part reaches the owner check and the caller is not the owner. 200 iff every step through the put and the update succeeds; the response is then the updated record. The first effect caps the body at `1 << 30`; a form parse that reads past the cap ends the call with 500 and no other effect. The whole trace is given in closed form. Unless the caller owns the video, the type is accepted and the spill file was created, it is exactly the cap, plus the part's opening and closing when the form yielded it: no spill-file effect and no put. Otherwise it is the cap, the part's opening, the spill file's creation, the effects of `SpillEffects` (at most one put and one update), the spill file's close and removal, and the part's close, in that order and with nothing else. Every put is the one of `VideoObject` and follows the spill file's creation. Once the spill file exists, the trace ends with closing and removing it and then closing the part. The part is closed whenever it was opened. The record is updated iff the put succeeded; the update writes the fetched record with only id, video URL and update time replaced, after the put |
| UploadVideo.ServeUpload | handler_upload_video.go:59-89 | the owner and type checks and the spill file's creation. Nothing happens unless the request is validated and the spill file exists. When it does exist, the trace is exactly `TempCreated`, then `SpillEffects`, then `TempClosed, TempRemoved`, so the file stays open until after the put and is released on every path. Statuses, puts and updates are as for the handler |
| UploadVideo.PublishSpilled | handler_upload_video.go:91-144 | copy, rewind, random key, put, update. 200 iff all succeed. The trace is exactly `SpillEffects`: the copy; the rewind iff the copy succeeded; one put iff the rewind and the random draw also succeeded; one update iff the put also succeeded; nothing else. A put happens iff copy, rewind and random draw succeed, and every put follows the rewind. An update happens iff the put succeeded; it follows the put and writes the record rebuilt field by field with the new URL |
| UploadVideo.VideoKeyShape | handler_upload_video.go:103-111 | the key has 53 characters: the 44-character encoding of the 32 random bytes, which decodes back to them, followed by `video/mp4`. Its first `/` is the one inside the media type |
| UploadVideo.KeyForInjective | handler_upload_video.go:103-111 | distinct random bytes give distinct object keys |
| UploadVideo.S3UrlNamesKey | handler_upload_video.go:125 | when bucket and region hold no `/`, the URL parses as `https`, host `<bucket>.s3.<region>.amazonaws.com`, path `/` + key |
| UploadVideo.RecordNamesObject | handler_upload_video.go:111-131 | the video URL written into the record parses to the bucket's host and to the exact key of the object that was put |
| UploadThumbnail.ConvertMediaTypeToExtension | handler_upload_thumbnail.go:121-128 | accepts exactly `image/png` and `image/jpeg` (both directions), giving `.png` and `.jpg` |
| UploadThumbnail.HandleUploadThumbnail | handler_upload_thumbnail.go:19-54 | status 400, 401 and 200 exactly as for the video handler, with 200 iff the asset file was created and written and the record updated; the response is then the updated record. The part is opened iff the form yields it, and it is never closed. Unless the caller owns the video and the type is accepted, the trace holds nothing but that opening. Otherwise it is exactly that opening followed by `AssetEffects`. An asset file is created iff the request is validated and the random draw and the create succeed, and every asset effect of a validated request concerns the one path `assets/<name>`. The record is updated iff the copy succeeded; the update follows the write into that file and writes the fetched record with only id, thumbnail URL and update time replaced |
| UploadThumbnail.ServeThumbnail | handler_upload_thumbnail.go:56-76 | the owner and type checks. Nothing happens unless the request is validated, and then the trace is exactly `AssetEffects` for the file `assets/<name>` and the updated record. Statuses, the asset file and the update are as for the handler |
| UploadThumbnail.PublishThumbnail | handler_upload_thumbnail.go:78-118 | random name, create, copy, update. 200 iff all succeed. The trace is exactly `AssetEffects`: the creation and the copy iff the draw and the create succeeded; one update iff the copy also succeeded; nothing else, so no asset effect follows the update. The file is created iff the draw and the create succeed, always at `assets/<encoded><extension>`. The update happens iff the copy was made, and follows it |
| UploadThumbnail.AssetNameShape | handler_upload_thumbnail.go:78-85 | for an accepted extension, the name has 48 characters and no `/`, and its first 44 decode back to the random bytes |
| UploadThumbnail.AssetPathInAssetsDir | handler_upload_thumbnail.go:85 | a name without `/` gives a path whose first `/` ends `assets` and whose remainder is the name, so it lies directly inside that directory |
| UploadThumbnail.ThumbnailUrlNamesAsset | handler_upload_thumbnail.go:98 | when the port holds no `/`, the URL parses as `http`, host `localhost:<port>`, path `/` + the asset's file path |
| UploadThumbnail.RecordNamesAsset | handler_upload_thumbnail.go:78-111 | the thumbnail URL written into the record names the server's host and the very file the handler created. That file lies in `assets`, and its name's first 44 characters decode to the random bytes |
| Base64.Encode | handler_upload_video.go:105 | no contract of its own; its meaning is stated by `EncodeLength`, `EncodeAlphabet`, `DecodeEncode`, `EncodeDecode` and `EncodeInjective` |
| Records.EncodedName | handler_upload_video.go:111 | the S3 key here and the asset name at line 85 of handler_upload_thumbnail.go: the encoded path followed by the extension, splitting back into the two |
| UploadVideo.KeyFor | handler_upload_video.go:103-111 | no contract of its own; see `VideoKeyShape` and `KeyForInjective` |
| UploadVideo.S3Url | handler_upload_video.go:125 | no contract of its own; see `S3UrlNamesKey` |
| UploadVideo.WithVideoUrl | handler_upload_video.go:126-137 | for the owner, the field-by-field rebuild is the fetched record with only id, video URL and update time replaced |
| UploadThumbnail.AssetPath | handler_upload_thumbnail.go:85 | no contract of its own; see `AssetPathInAssetsDir` |
| UploadThumbnail.ThumbnailUrl | handler_upload_thumbnail.go:98 | no contract of its own; see `ThumbnailUrlNamesAsset` |
| UploadThumbnail.WithThumbnailUrl | handler_upload_thumbnail.go:100-111 | for the owner, the field-by-field rebuild is the fetched record with only id, thumbnail URL and update time replaced |
| Base64.EncodeLength | handler_upload_video.go:105 | the encoding of `n` bytes has `4 * ceil(n / 3)` characters |
| Base64.EncodeAlphabet | handler_upload_video.go:105 | the encoding is alphabet characters followed by exactly the padding the last group needs |
| Base64.EncodeOf32 | handler_upload_thumbnail.go:78-80 | 32 bytes encode to 44 characters: 43 from the URL-safe alphabet and one final `=` |
| Base64.EncodeHasNoSlash | handler_upload_thumbnail.go:80 | the encoding holds neither `/` nor `+`, so it is safe in a file name and in a URL path |
| Base64.DecodeEncode | handler_upload_video.go:105 | the strict decoder recovers every input from its encoding |
| Base64.EncodeDecode | handler_upload_video.go:105 | whatever the strict decoder accepts is the encoding of what it returns |
| Base64.EncodeInjective | handler_upload_thumbnail.go:80 | distinct byte strings have distinct encodings |

## Left out

- HTTP plumbing is out: reading the path value and headers, `MaxBytesReader`'s reader, multipart parsing and writing the JSON or error response. Their outcomes are inputs. The body's size is modelled as the number of bytes `ParseMultipartForm` reads, and reading past the cap makes it fail, which is how the capped reader surfaces it. The model does not relate that number to the length of the body the client sends. The multipart reader can stop at the closing boundary before the rest of a longer body is read.
- `auth.GetBearerToken` and `auth.ValidateJWT` are out; only whether they succeed, and the user id, are inputs. The `auth` package is not part of this model.
- The metadata store (`cfg.db.GetVideo` and `UpdateVideo`) is not part of this model. Its outcomes are inputs. The record's fields are those the handlers read and write; the `database` package itself is not part of this model.
- S3 (`PutObject`), `os.CreateTemp`, `os.Create`, `io.Copy`, `Seek`, `Close` and `os.Remove` are out. Each is recorded as an effect, with its success as an input. File contents and bytes transferred are not modelled.
- Randomness and the clock are inputs: the 32 bytes `rand.Read` yields and whether it failed, and the `time.Now()` value.
- `mime.ParseMediaType` is an input: the parsed type or a failure. Media-type parameters are not modelled.
- `filepath.Join("./assets/", name)` is modelled as `assets/` + name. That is its result for a name without `/` other than `.` and `..`, which every generated name is.
- The thumbnail handler's `fmt.Println` log line and its `ParseMultipartForm` memory limit (`10 << 20`) are out. The limit only decides what is buffered in memory and caps nothing.
- Concurrency is out, and so are two requests racing on the same record.
- Failed creations leave no effect in the trace, and closing a handle that failed to open is not modelled. Every other call is recorded when made, whatever its result.

