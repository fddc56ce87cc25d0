/** Checks on uploaded images: the content type, the size limit, the id format and the file's
    presence. */
module MediaValidators {
  import opened Common

  const ALLOWED_CONTENT_TYPES: seq<string> := ["image/jpeg", "image/png", "image/jpg"]
  const MAX_FILE_SIZE := 5_242_880
  const CONTENT_TYPE_MESSAGE := "Поддерживаются только JPG и PNG форматы"
  const FILE_SIZE_MESSAGE := "Размер файла не должен превышать 5Мб."
  const MEDIA_ID_MESSAGE := "Неверный формат ID"
  const MEDIA_NOT_FOUND_MESSAGE := "Изображение не найдено"

  /** An uploaded file: its declared content type (None when the client sent none) and its bytes. */
  datatype Upload = Upload(contentType: Option<string>, contents: seq<bv8>)

  /** `uuid.UUID(media_id, version=4)` succeeding, which is not part of this model. */
  type UuidParses = string -> bool

  /** `os.path.exists`, which is not part of this model. */
  type PathExists = string -> bool

  /** `media_allowed_content_type`: JPEG, PNG or the non-standard image/jpg, else 400. */
  function MediaAllowedContentType(file: Upload): (r: Outcome<Upload>)
    ensures r.Ok? <==> file.contentType == Some("image/jpeg") || file.contentType == Some("image/png")
                       || file.contentType == Some("image/jpg")
    ensures r.Ok? ==> r.value == file
    ensures r.Fail? ==> r == HttpFail(400, CONTENT_TYPE_MESSAGE)
  {
    if file.contentType.None? || file.contentType.value !in ALLOWED_CONTENT_TYPES then HttpFail(400, CONTENT_TYPE_MESSAGE)
    else Ok(file)
  }

  /** `check_len_file`: the contents, when they are at most 5 MiB long, else 400. */
  function CheckLenFile(file: Upload): (r: Outcome<seq<bv8>>)
    ensures r.Ok? <==> |file.contents| <= 5 * 1024 * 1024
    ensures r.Ok? ==> r.value == file.contents
    ensures r.Fail? ==> r == HttpFail(400, FILE_SIZE_MESSAGE)
  {
    if |file.contents| > MAX_FILE_SIZE then HttpFail(400, FILE_SIZE_MESSAGE) else Ok(file.contents)
  }

  /** The limit is inclusive: a file of exactly 5 MiB passes and one byte more is refused. */
  lemma SizeLimitInclusive(exact: Upload, over: Upload)
    requires |exact.contents| == MAX_FILE_SIZE && |over.contents| == MAX_FILE_SIZE + 1
    ensures CheckLenFile(exact).Ok? && CheckLenFile(over).Fail?
  {
  }

  /** `check_media_id`: the id itself when it parses as a UUID, else 422. */
  function CheckMediaId(parses: UuidParses, mediaId: string): (r: Outcome<string>)
    ensures r.Ok? <==> parses(mediaId)
    ensures r.Ok? ==> r.value == mediaId
    ensures r.Fail? ==> r == HttpFail(422, MEDIA_ID_MESSAGE)
  {
    if !parses(mediaId) then HttpFail(422, MEDIA_ID_MESSAGE) else Ok(mediaId)
  }

  /** `media_exist`: the path itself when the file exists, else 404. */
  function MediaExist(pathExists: PathExists, filePath: string): (r: Outcome<string>)
    ensures r.Ok? <==> pathExists(filePath)
    ensures r.Ok? ==> r.value == filePath
    ensures r.Fail? ==> r == HttpFail(404, MEDIA_NOT_FOUND_MESSAGE)
  {
    if !pathExists(filePath) then HttpFail(404, MEDIA_NOT_FOUND_MESSAGE) else Ok(filePath)
  }
}
