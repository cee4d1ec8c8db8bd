/** backend/api/utils.py: the header split of a `data:image/<ext>;base64,<payload>`
    image string (the data URL form of RFC 2397, section 3) and the look-ups of
    the request, its user and its query parameters in a serializer context. */
module Utils {
  import opened Wrappers
  import opened Text
  import opened UserModels
  import opened Requests

  // ----- Base64ImageField.to_internal_value -----

  /** What a client sends for an image field: a string, or something else (an
      uploaded file), which is not looked at. */
  datatype ImageInput = TextInput(s: string) | OtherInput(upload: string)

  /** What is handed on to `ImageField.to_internal_value`: the input itself, or
      a named file holding the (still encoded) payload. */
  datatype ImageValue = Unchanged(input: ImageInput) | NamedContent(name: string, payload: string)

  /** `format, imgstr = data.split(';base64,')` raised ValueError: the split gave
      `pieces` pieces instead of two. */
  datatype ImageError = UnpackError(pieces: nat)

  const DataImagePrefix: string := "data:image"
  const Base64Marker: string := ";base64,"
  const TempName: string := "temp."

  predicate IsDataImage(data: ImageInput) {
    data.TextInput? && StartsWith(data.s, DataImagePrefix)
  }

  /** `sep` occurs in `s`, and not again after its first occurrence. */
  predicate OccursOnce(s: string, sep: string)
    requires |sep| > 0
  {
    var f := Find(s, sep);
    f.Some? && Find(s[f.value + |sep|..], sep).None?
  }

  /** A string that is not a `data:image` URL passes through untouched; a data
      URL is accepted exactly when `;base64,` occurs in it once, and the file name
      is `temp.` followed by the text after the last `/` of the header. */
  function Base64ToInternalValue(data: ImageInput): (r: Result<ImageValue, ImageError>)
    ensures !IsDataImage(data) ==> r == Ok(Unchanged(data))
    ensures IsDataImage(data) ==> (r.Ok? <==> OccursOnce(data.s, Base64Marker))
    ensures IsDataImage(data) && r.Ok? ==> r.value.NamedContent?
    ensures r.Ok? && r.value.NamedContent? ==>
              StartsWith(r.value.name, TempName) && '/' !in r.value.name[|TempName|..]
  {
    if IsDataImage(data) then
      OnceMeansTwoPieces(data.s);
      var parts := Split(data.s, Base64Marker);
      if |parts| != 2 then Err(UnpackError(|parts|))
      else
        var ext := LastPart(parts[0], '/');
        LastPartIsSuffix(parts[0], '/');
        assert (TempName + ext)[|TempName|..] == ext;
        Ok(NamedContent(TempName + ext, parts[1]))
    else Ok(Unchanged(data))
  }

  /** The split on the marker gives two pieces exactly when the marker occurs
      once. */
  lemma OnceMeansTwoPieces(s: string)
    ensures |Split(s, Base64Marker)| == 2 <==> OccursOnce(s, Base64Marker)
  {
    SplitPieces(s, Base64Marker);
    if Find(s, Base64Marker).Some? {
      var i := Find(s, Base64Marker).value;
      SplitAtFirst(s, Base64Marker, i);
      SplitPieces(s[i + |Base64Marker|..], Base64Marker);
    }
  }

  /** An accepted data URL is its header, the marker and the payload, in that
      order, and the extension is the end of that header. */
  lemma DataImageDecomposes(s: string)
    requires StartsWith(s, DataImagePrefix)
    requires Base64ToInternalValue(TextInput(s)).Ok?
    ensures var v := Base64ToInternalValue(TextInput(s)).value;
      exists header: string ::
        && s == header + Base64Marker + v.payload
        && StartsWith(header, DataImagePrefix)
        && v.name == TempName + LastPart(header, '/')
        && EndsWith(header, LastPart(header, '/'))
  {
    var parts := Split(s, Base64Marker);
    var header := parts[0];
    assert |parts| == 2 by {
      OnceMeansTwoPieces(s);
    }
    var v := Base64ToInternalValue(TextInput(s)).value;
    assert v == NamedContent(TempName + LastPart(header, '/'), parts[1]);
    SplitInTwo(s, Base64Marker);
    LastPartIsSuffix(header, '/');
    PrefixBeforeSeparator(header, Base64Marker + parts[1]);
    assert s == header + Base64Marker + v.payload;
  }

  /** `data:image` holds no `;`, so a string starting with it keeps it in front of
      a following `;`. */
  lemma PrefixBeforeSeparator(header: string, rest: string)
    requires |rest| > 0 && rest[0] == ';'
    requires StartsWith(header + rest, DataImagePrefix)
    ensures StartsWith(header, DataImagePrefix)
  {
    var s := header + rest;
    assert s[|header|] == ';';
    assert forall k | 0 <= k < |DataImagePrefix| :: s[k] == DataImagePrefix[k] != ';';
    assert s[..|DataImagePrefix|] == header[..|DataImagePrefix|];
  }

  predicate EndsWith(s: string, suffix: string) {
    |suffix| <= |s| && s[|s| - |suffix|..] == suffix
  }

  // ----- context look-ups -----

  /** A serializer context: it may or may not hold the request. */
  datatype Context = Context(request: Option<Request>)

  /** What the look-ups return: `None`, the request, the user, or a query
      parameter's value. */
  datatype Lookup = Nothing | RequestValue(request: Request) | UserValue(user: User) | ParamValue(param: string)

  /** The signed-in user of the request in `ctx`, if there is one. */
  predicate HasSignedInUser(ctx: Context) {
    ctx.request.Some? && ctx.request.value.user.Some? && ctx.request.value.user.value.Authenticated?
  }

  /** `get_request_or_user(context, value)`: no request gives `None`; a falsy
      `value` gives the request; otherwise the signed-in user, or `None` when
      the request has no user or an anonymous one. */
  function GetRequestOrUser(ctx: Context, value: bool): (r: Lookup)
    ensures ctx.request.None? ==> r == Nothing
    ensures ctx.request.Some? && !value ==> r == RequestValue(ctx.request.value)
    ensures value ==> (r.UserValue? <==> HasSignedInUser(ctx))
    ensures value && !HasSignedInUser(ctx) ==> r == Nothing
    ensures value && HasSignedInUser(ctx) ==> r == UserValue(ctx.request.value.user.value.user)
  {
    match ctx.request
    case None => Nothing
    case Some(request) =>
      if !value then RequestValue(request)
      else if request.user.None? || request.user.value.Anonymous? then Nothing
      else UserValue(request.user.value.user)
  }

  /** `get_request_attribute(context, attribute)`: with `'user'` it behaves as the
      user look-up above; with any other name it gives that query parameter,
      or `None` when the parameter is missing or empty. */
  function GetRequestAttribute(ctx: Context, attribute: Option<string>): (r: Lookup)
    ensures ctx.request.None? ==> r == Nothing
    ensures attribute == Some("user") ==> r == GetRequestOrUser(ctx, true)
    ensures attribute != Some("user") ==> (r.ParamValue? || r.Nothing?)
    ensures attribute != Some("user") && r.ParamValue? ==>
              && attribute.Some? && ctx.request.Some?
              && attribute.value in ctx.request.value.queryParams
              && r.param == ctx.request.value.queryParams[attribute.value] && r.param != ""
    ensures (attribute != Some("user") && ctx.request.Some? && attribute.Some?
             && attribute.value in ctx.request.value.queryParams
             && ctx.request.value.queryParams[attribute.value] != "") ==> r.ParamValue?
  {
    match ctx.request
    case None => Nothing
    case Some(request) =>
      if attribute == Some("user") then
        if request.user.None? || request.user.value.Anonymous? then Nothing
        else UserValue(request.user.value.user)
      else
        var found :=
          if attribute.Some? && attribute.value in request.queryParams
          then Some(request.queryParams[attribute.value]) else None;
        if found.None? || found.value == "" then Nothing else ParamValue(found.value)
  }
}
