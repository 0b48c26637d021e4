/** The `POST /recognize` handler: look up the `img` field, run the four
    checks in order, and on success hand the file's bytes to the OCR engine. */
module RecognizeHandler {
  import opened Wrappers
  import opened Http
  import Text
  import FormData

  const FieldName: string := "img"

  /** The accepted values of the uploaded `File`'s `type`, in the order the
      error message lists them. */
  const AllowedTypes: seq<string> :=
    ["image/jpeg", "image/jpg", "image/png", "image/gif", "image/webp"]

  const UnsupportedTypePrefix: string := "Unsupported file type. Allowed types: "

  /** The four ways an upload is refused, in the order they are checked. */
  datatype ValidationError = MissingField | NotAFile | UnsupportedType | EmptyFile

  datatype Validation = Accepted(bytes: seq<byte>) | Rejected(error: ValidationError)

  /** The text of the `error` member of the 400 response. */
  function ErrorMessage(e: ValidationError): string
  {
    match e
    case MissingField => "Field \"img\" is missing in the request"
    case NotAFile => "Field \"img\" must contain a file"
    case UnsupportedType => UnsupportedTypePrefix + Text.Join(AllowedTypes, ", ")
    case EmptyFile => "File is empty"
  }

  /** The validation chain. Each error is reported exactly when every earlier
      check passed and its own check fails; a value that passes all four is
      accepted with the file's complete contents. */
  function Validate(img: Option<Part>): (v: Validation)
    ensures v == Rejected(MissingField) <==> !TruthyPart(img)
    ensures v == Rejected(NotAFile) <==> TruthyPart(img) && img.value.Text?
    ensures v == Rejected(UnsupportedType) <==>
      img.Some? && img.value.File? && img.value.contentType !in AllowedTypes
    ensures v == Rejected(EmptyFile) <==>
      img.Some? && img.value.File? && img.value.contentType in AllowedTypes
      && |img.value.bytes| == 0
    ensures v.Accepted? <==>
      img.Some? && img.value.File? && img.value.contentType in AllowedTypes
      && |img.value.bytes| > 0
    ensures v.Accepted? ==> v.bytes == img.value.bytes
  {
    if !TruthyPart(img) then Rejected(MissingField)
    else if !img.value.File? then Rejected(NotAFile)
    else if !Text.Includes(AllowedTypes, img.value.contentType) then Rejected(UnsupportedType)
    else if |img.value.bytes| == 0 then Rejected(EmptyFile)
    else Accepted(img.value.bytes)
  }

  /** How the value of one `recognize` call becomes the response: a result is
      sent as JSON with the default status; an exception escapes the handler
      and the framework answers with a server error. */
  function Reply<R>(a: AdapterReply<R>): (resp: Response<R>)
    ensures a.Recognized? <==> resp.status == StatusOk
    ensures a.Recognized? ==> resp.body == ResultJson(a.value)
    ensures a.Threw? ==> resp.status == StatusInternalError
  {
    match a
    case Recognized(v) => Response(StatusOk, ResultJson(v))
    case Threw => Response(StatusInternalError, InternalError)
  }

  /** The handler. A refused upload answers 400 with the error's message and
      never calls the engine; an accepted one calls it exactly once, with
      the whole file, and passes its answer through unchanged. */
  function Handle<R>(form: seq<FormField>, recognize: seq<byte> -> AdapterReply<R>): (o: Outcome<R>)
    ensures |o.recognizeCalls| <= 1
    ensures o.response.status == StatusBadRequest <==> Validate(FormData.Get(form, FieldName)).Rejected?
    ensures Validate(FormData.Get(form, FieldName)).Rejected? ==>
      o.recognizeCalls == []
      && o.response.body == ErrorJson(ErrorMessage(Validate(FormData.Get(form, FieldName)).error))
    ensures Validate(FormData.Get(form, FieldName)).Accepted? ==>
      var bytes := FormData.Get(form, FieldName).value.bytes;
      o.recognizeCalls == [bytes] && o.response == Reply(recognize(bytes))
  {
    match Validate(FormData.Get(form, FieldName))
    case Rejected(e) => Answer(StatusBadRequest, ErrorJson(ErrorMessage(e)))
    case Accepted(bytes) => Outcome(Reply(recognize(bytes)), [bytes])
  }

  /** The texts of the missing-field, not-a-file and empty-file errors. */
  lemma ErrorMessageTexts()
    ensures ErrorMessage(MissingField) == "Field \"img\" is missing in the request"
    ensures ErrorMessage(NotAFile) == "Field \"img\" must contain a file"
    ensures ErrorMessage(EmptyFile) == "File is empty"
  {
  }

  /** The unsupported-type message names the five allowed types in their
      list order, separated by a comma and a space. */
  lemma UnsupportedTypeMessageText()
    ensures ErrorMessage(UnsupportedType) ==
      UnsupportedTypePrefix + (AllowedTypes[0] + (", " + (AllowedTypes[1] + (", " + (AllowedTypes[2]
      + (", " + (AllowedTypes[3] + (", " + AllowedTypes[4]))))))))
  {
    Text.JoinFive(AllowedTypes[0], AllowedTypes[1], AllowedTypes[2], AllowedTypes[3], AllowedTypes[4], ", ");
  }

  /** The four messages are pairwise different, so a client can tell from
      the message alone which check failed. */
  lemma ErrorMessagesDistinct(e1: ValidationError, e2: ValidationError)
    ensures ErrorMessage(e1) == ErrorMessage(e2) ==> e1 == e2
  {
  }

  /** The type check comes before the emptiness check: an empty file whose
      type is not allowed is reported as an unsupported type. */
  lemma TypeCheckPrecedesEmptiness(contentType: string)
    requires contentType !in AllowedTypes
    ensures Validate(Some(File(contentType, []))) == Rejected(UnsupportedType)
  {
  }

  /** The handler compares the `File`'s `type` exactly: a differently-cased
      spelling or one carrying parameters is refused at this check. */
  lemma ContentTypeMatchIsExact(bytes: seq<byte>)
    requires |bytes| > 0
    ensures Validate(Some(File("image/png", bytes))) == Accepted(bytes)
    ensures Validate(Some(File("IMAGE/PNG", bytes))) == Rejected(UnsupportedType)
    ensures Validate(Some(File("image/png; charset=binary", bytes))) == Rejected(UnsupportedType)
  {
  }

  /** Only the first `img` entry is consulted: a later valid file does not
      rescue an earlier empty text value. */
  lemma FirstImgEntryDecides(bytes: seq<byte>)
    ensures Validate(FormData.Get([FormField(FieldName, Text("")), FormField(FieldName, File("image/png", bytes))], FieldName))
      == Rejected(MissingField)
  {
  }
}
