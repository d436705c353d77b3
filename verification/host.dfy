/** The outcome of starting the CAD host and opening one document in it.

    The host's automation calls (`Type.GetTypeFromProgID`, `Activator.CreateInstance`,
    `OpenDoc6` and the cast to the expected document interface) are not modelled;
    their combined outcome is an input of the model, and `OpenDocument` turns it into
    the document or into the message of the exception the source throws. */
module Host {
  import opened Wrappers
  import Text
  import ErrorCodes

  datatype Session<+D> =
    | NotRegistered                          // no automation type registered for the host
    | NotStarted                             // the host object could not be created
    | OpenFailed(errors: int, warnings: int) // OpenDoc6 returned null
    | WrongType                              // the opened model is not of the requested kind
    | Opened(doc: D)

  datatype DocumentKind = AssemblyKind | PartKind

  const HostNotFoundMessage := "SolidWorks uygulaması bulunamadı."
  const HostNotStartedMessage := "SolidWorks uygulaması başlatılamadı."

  function OpenFailedMessage(kind: DocumentKind, errors: int, warnings: int): string {
    OpenFailedPrefix(kind) + OpenFailedDetails(errors, warnings)
  }

  function OpenFailedPrefix(kind: DocumentKind): string {
    if kind == AssemblyKind then "Montaj açılamadı. Hatalar: " else "Model açılamadı. Hatalar: "
  }

  /** The host's error and warning codes, then the description of the error code. */
  function OpenFailedDetails(errors: int, warnings: int): string {
    Text.IntToString(errors) + ", Uyarılar: " + Text.IntToString(warnings)
    + ". Hata açıklaması: " + ErrorCodes.ErrorDescription(errors)
  }

  function WrongTypeMessage(kind: DocumentKind): string {
    if kind == AssemblyKind then "Model bir montaj dosyası değil." else "Model bir parça dosyası değil."
  }

  /** Yields the opened document, or fails with the message of the matching check. */
  function OpenDocument<D>(s: Session<D>, kind: DocumentKind): (r: Result<D>)
    ensures r.Ok? <==> s.Opened?
    ensures s.Opened? ==> r.value == s.doc
    ensures s.OpenFailed? ==> r.Err? && Text.EndsWith(r.message, ErrorCodes.ErrorDescription(s.errors))
  {
    match s
    case NotRegistered => Err(HostNotFoundMessage)
    case NotStarted => Err(HostNotStartedMessage)
    case OpenFailed(errors, warnings) => Err(OpenFailedMessage(kind, errors, warnings))
    case WrongType => Err(WrongTypeMessage(kind))
    case Opened(doc) => Ok(doc)
  }

  /** The check that failed can be read off the message: its first letter tells a host
      that could not be found or started from a document that could not be opened or
      has the wrong type, and one further letter tells the two apart. */
  lemma FailureMessageIdentifiesCheck<D>(s1: Session<D>, s2: Session<D>, kind: DocumentKind)
    requires !s1.Opened? && !s2.Opened?
    requires OpenDocument(s1, kind).message == OpenDocument(s2, kind).message
    ensures s1.NotRegistered? <==> s2.NotRegistered?
    ensures s1.NotStarted? <==> s2.NotStarted?
    ensures s1.OpenFailed? <==> s2.OpenFailed?
    ensures s1.WrongType? <==> s2.WrongType?
  {
    MessageMarks(s1, kind);
    MessageMarks(s2, kind);
  }

  /** The letters of a failure message that name its check. */
  lemma MessageMarks<D>(s: Session<D>, kind: DocumentKind)
    requires !s.Opened?
    ensures var m := OpenDocument(s, kind).message;
            && |m| > 23
            && (m[0] == 'S' <==> s.NotRegistered? || s.NotStarted?)
            && (m[0] == 'S' ==> (m[23] == 'u' <==> s.NotRegistered?))
            && (m[0] != 'S' && kind == AssemblyKind ==> (m[2] == 'n' <==> s.OpenFailed?))
            && (m[0] != 'S' && kind == PartKind ==> (m[6] == 'a' <==> s.OpenFailed?))
  {
    match s
    case NotRegistered => HostMessageMarks();
    case NotStarted => HostMessageMarks();
    case OpenFailed(errors, warnings) => OpenFailedMessageMarks(kind, errors, warnings);
    case WrongType => WrongTypeMessageMarks(kind);
  }

  lemma HostMessageMarks()
    ensures |HostNotFoundMessage| > 23 && HostNotFoundMessage[0] == 'S' && HostNotFoundMessage[23] == 'u'
    ensures |HostNotStartedMessage| > 23 && HostNotStartedMessage[0] == 'S' && HostNotStartedMessage[23] == 'a'
  {
  }

  lemma OpenFailedMessageMarks(kind: DocumentKind, errors: int, warnings: int)
    ensures var m := OpenFailedMessage(kind, errors, warnings);
            && |m| > 23 && m[0] == 'M'
            && (kind == AssemblyKind ==> m[2] == 'n')
            && (kind == PartKind ==> m[6] == 'a')
  {
    OpenFailedPrefixMarks(kind, OpenFailedDetails(errors, warnings));
  }

  /** The marks lie in the prefix, whatever follows it. */
  lemma OpenFailedPrefixMarks(kind: DocumentKind, rest: string)
    ensures var m := OpenFailedPrefix(kind) + rest;
            && |m| > 23 && m[0] == 'M'
            && (kind == AssemblyKind ==> m[2] == 'n')
            && (kind == PartKind ==> m[6] == 'a')
  {
    var prefix := OpenFailedPrefix(kind);
    assert (prefix + rest)[0] == prefix[0] && (prefix + rest)[2] == prefix[2] && (prefix + rest)[6] == prefix[6];
  }

  lemma WrongTypeMessageMarks(kind: DocumentKind)
    ensures var m := WrongTypeMessage(kind);
            && |m| > 23 && m[0] == 'M'
            && (kind == AssemblyKind ==> m[2] == 'd')
            && (kind == PartKind ==> m[6] == 'b')
  {
  }
}
