/** The uniform error format: `err` builds an HTTPException whose detail is {code, message},
    and the global handlers turn HTTP, validation and integrity errors into a JSON response
    with exactly those two keys. */
module ApiExceptions {
  import opened Common

  const DUPLICATE_MESSAGE := "Пользователь с таким email или телефоном уже существует"
  const VALIDATION_MESSAGE := "Неверные данные запроса"

  /** A JSON response: its status code and its body. */
  datatype Response = Response(status: int, content: map<string, string>)

  function Body(code: string, message: string): (m: map<string, string>)
    ensures m.Keys == {"code", "message"} && m["code"] == code && m["message"] == message
  {
    map["code" := code, "message" := message]
  }

  /** `err(code, message, status)`. */
  function Err<T>(code: string, message: string, status: int): (r: Outcome<T>)
    ensures r.Fail? && r.exc.Http? && r.exc.error.status == status
    ensures r.exc.error.detail == Dict(Body(code, message))
  {
    Fail(Http(HttpError(status, Dict(Body(code, message)))))
  }

  /** The default (code, message) of a status: the table for 400, 401, 403, 404 and 422,
      ('ERROR', 'Ошибка') for any other status. */
  function DefaultCode(status: int): (r: (string, string))
    ensures status !in {400, 401, 403, 404, 422} <==> r == ("ERROR", "Ошибка")
  {
    if status == 400 then ("BAD_REQUEST", "Некорректный запрос")
    else if status == 401 then ("UNAUTHORIZED", "Требуется авторизация")
    else if status == 403 then ("FORBIDDEN", "Недостаточно прав")
    else if status == 404 then ("NOT_FOUND", "Не найдено")
    else if status == 422 then ("UNPROCESSABLE_ENTITY", "Неверные данные запроса")
    else ("ERROR", "Ошибка")
  }

  /** Whether a detail already has the {code, message} shape. */
  predicate IsCodedDetail(d: Detail) {
    d.Dict? && "code" in d.entries && "message" in d.entries
  }

  /** The handler of HTTPException. */
  function HttpExcHandler(e: HttpError): (r: Response)
    ensures r.status == e.status
    ensures IsCodedDetail(e.detail) ==> r.content == e.detail.entries
    ensures !IsCodedDetail(e.detail) ==>
              r.content == Body(DefaultCode(e.status).0,
                                if e.detail.Text? then e.detail.text else DefaultCode(e.status).1)
  {
    if IsCodedDetail(e.detail) then Response(e.status, e.detail.entries)
    else
      var (code, defaultMessage) := DefaultCode(e.status);
      var message := if e.detail.Text? then e.detail.text else defaultMessage;
      Response(e.status, Body(code, message))
  }

  /** Whatever the detail, the response body has a code and a message. */
  lemma ResponseAlwaysCoded(e: HttpError)
    ensures "code" in HttpExcHandler(e).content && "message" in HttpExcHandler(e).content
  {
  }

  /** An exception built by `err` comes back out of the handler with the same status, code and message. */
  lemma ErrRoundTrip(code: string, message: string, status: int)
    ensures var f: Outcome<()> := Err(code, message, status);
            HttpExcHandler(f.exc.error) == Response(status, Body(code, message))
  {
  }

  /** A string detail replaces the default message but never the default code. */
  lemma TextKeepsCode(status: int, text: string)
    ensures HttpExcHandler(HttpError(status, Text(text))).content["code"] == DefaultCode(status).0
    ensures HttpExcHandler(HttpError(status, Text(text))).content["message"] == text
  {
  }

  /** The handler of request validation errors: always 422 with a fixed body. */
  function ValidationExcHandler(): (r: Response)
    ensures r.status == 422 && r.content == Body("VALIDATION_ERROR", VALIDATION_MESSAGE)
  {
    Response(422, Body("VALIDATION_ERROR", VALIDATION_MESSAGE))
  }

  /** Whether the lowered text of an integrity error names a uniqueness violation. */
  predicate MentionsDuplicate(text: string) {
    Contains(Lower(text), "unique") || Contains(Lower(text), "duplicate")
  }

  /** The handler of integrity errors: 400 either way, USER_DUPLICATE for a uniqueness
      violation and DB_CONSTRAINT_VIOLATION otherwise. */
  function IntegrityExcHandler(text: string): (r: Response)
    ensures r.status == 400
    ensures MentionsDuplicate(text) <==> r.content == Body("USER_DUPLICATE", DUPLICATE_MESSAGE)
    ensures !MentionsDuplicate(text) <==>
              r.content == Body("DB_CONSTRAINT_VIOLATION", "Нарушение ограничений базы данных")
  {
    if MentionsDuplicate(text) then Response(400, Body("USER_DUPLICATE", DUPLICATE_MESSAGE))
    else Response(400, Body("DB_CONSTRAINT_VIOLATION", "Нарушение ограничений базы данных"))
  }

  /** The test is case-insensitive: an upper-case "UNIQUE" counts. */
  lemma UpperCaseUniqueCounts(prefix: string, suffix: string)
    ensures MentionsDuplicate(prefix + "UNIQUE" + suffix)
  {
    var t := prefix + "UNIQUE" + suffix;
    var i := |prefix|;
    assert t[i..i + 6] == "UNIQUE";
    assert Lower(t)[i..i + 6] == "unique" by {
      forall j | 0 <= j < 6 ensures Lower(t)[i + j] == "unique"[j] {
        assert Lower(t)[i + j] == LowerChar(t[i + j]);
      }
    }
    assert OccursAt(Lower(t), "unique", i);
  }
}
