/** How a request is built from the command line: the method, the headers and the body, each
    settled by a fixed order of precedence. */
module HttpRequest {
  import opened Outcomes
  import opened CommandLine
  import Text

  type Bytes = seq<bv8>

  datatype Part = Field(name: string, value: string) | File(name: string, path: string, mime: string, contents: Bytes)

  datatype Body =
    | Empty
    | Typed(text: string)
    | Uploaded(contents: Bytes)
    | Multipart(boundary: string, parts: seq<Part>)

  type Header = (string, string)

  datatype Message = Message(requestMethod: string, uri: string, http2: bool, headers: seq<Header>, body: Body)

  datatype BuildError =
    | InvalidHeaderValue
    | InvalidHeaderName
    | HeaderWithoutColon
    | FormWithoutEquals
    | NoFileName
    | UnreadableFile
    | InvalidMethod
    | UnprintableHeader

  /** What the builder learns from outside: file contents, base names and media types. */
  datatype Environment = Environment(
    readFile: string -> Option<Bytes>,
    baseName: string -> Option<string>,
    mimeOf: string -> string,
    formType: string -> string)

  const CONTENT_TYPE := "content-type"
  const ACCEPT := "accept"
  const USER_AGENT := "user-agent"
  const COOKIE := "cookie"
  const URLENCODED := "application/x-www-form-urlencoded"
  const DEFAULT_AGENT := "rcurl/0.0.35"

  // ---------- Header names and values ----------

  predicate IsTokenChar(c: char) {
    'a' <= c <= 'z' || 'A' <= c <= 'Z' || '0' <= c <= '9' || c in "!#$%&'*+-.^_`|~"
  }

  predicate IsToken(s: string) {
    s != "" && forall i | 0 <= i < |s| :: IsTokenChar(s[i])
  }

  /** Control characters are refused; anything beyond ASCII is taken as it is encoded. */
  predicate IsHeaderValue(s: string) {
    forall i | 0 <= i < |s| :: (' ' <= s[i] && s[i] as int != 0x7F) || s[i] == '\t'
  }

  /** Only ASCII values can be turned back into text, which the verbose log requires. */
  predicate IsPrintable(s: string) {
    forall i | 0 <= i < |s| :: ' ' <= s[i] <= '~' || s[i] == '\t'
  }

  /** Names are checked and lower-cased, so that they compare without regard to case. */
  function HeaderName(s: string): Result<string, BuildError> {
    if IsToken(s) && |s| < 0x1_0000 then Ok(Text.Lower(s)) else Err(InvalidHeaderName)
  }

  function HeaderValue(s: string): Result<string, BuildError> {
    if IsHeaderValue(s) then Ok(s) else Err(InvalidHeaderValue)
  }

  // ---------- The header map ----------

  /** A header map keeps its entries in the order their names first came. */
  function Insert(m: seq<Header>, name: string, value: string): seq<Header> {
    if m == [] then [(name, value)]
    else if m[0].0 == name then [(name, value)] + m[1..]
    else [m[0]] + Insert(m[1..], name, value)
  }

  function Lookup(m: seq<Header>, name: string): Option<string> {
    if m == [] then None
    else if m[0].0 == name then Some(m[0].1)
    else Lookup(m[1..], name)
  }

  /** All values of a name, in order. */
  function Values(m: seq<Header>, name: string): seq<string> {
    if m == [] then [] else (if m[0].0 == name then [m[0].1] else []) + Values(m[1..], name)
  }

  ghost predicate HasUniqueNames(m: seq<Header>) {
    forall name :: |Values(m, name)| <= 1
  }

  function BaseHeaders(c: Cli): Result<seq<Header>, BuildError> {
    var typed := if c.body.Some? then Insert([], CONTENT_TYPE, URLENCODED) else [];
    var accepting := Insert(typed, ACCEPT, "*/*");
    var agent :- HeaderValue(if c.userAgent.Some? then c.userAgent.value else DEFAULT_AGENT);
    var named := Insert(accepting, USER_AGENT, agent);
    if c.cookie.None? then Ok(named)
    else
      var cookie :- HeaderValue(c.cookie.value);
      Ok(Insert(named, COOKIE, cookie))
  }

  /** One `-H` argument: name, colon, value without leading blanks. */
  function ParseHeader(x: string): Result<Header, BuildError> {
    var n := Text.IndexOf(x, ':');
    if n == |x| then Err(HeaderWithoutColon)
    else
      var name :- HeaderName(x[..n]);
      var value :- HeaderValue(Text.TrimStart(x[n + 1..]));
      Ok((name, value))
  }

  function UserHeaders(m: seq<Header>, xs: seq<string>): Result<seq<Header>, BuildError> {
    if xs == [] then Ok(m)
    else
      var before :- UserHeaders(m, xs[..|xs| - 1]);
      var h :- ParseHeader(xs[|xs| - 1]);
      Ok(Insert(before, h.0, h.1))
  }

  // ---------- Multipart forms ----------

  /** `name=value`, or `name=@path` for a file, of which only the base name is opened. */
  function ParsePart(env: Environment, form: string): Result<Part, BuildError> {
    var n := Text.IndexOf(form, '=');
    if n == |form| then Err(FormWithoutEquals)
    else
      var name, value := form[..n], form[n + 1..];
      if value != "" && value[0] == '@' then
        var path := Text.Remove(value, '@');
        match env.baseName(path)
        case None => Err(NoFileName)
        case Some(file) =>
          match env.readFile(file)
          case None => Err(UnreadableFile)
          case Some(contents) => Ok(File(name, file, env.mimeOf(path), contents))
      else Ok(Field(name, value))
  }

  function FormParts(env: Environment, forms: seq<string>): Result<seq<Part>, BuildError> {
    if forms == [] then Ok([])
    else
      var before :- FormParts(env, forms[..|forms| - 1]);
      var part :- ParsePart(env, forms[|forms| - 1]);
      Ok(before + [part])
  }

  // ---------- The request ----------

  function MethodFor(c: Cli): string {
    if c.forms != [] then "POST"
    else if Head in c.flags then "HEAD"
    else if c.requestMethod.Some? then c.requestMethod.value
    else if c.uploadFile.Some? then "PUT"
    else if c.body.Some? then "POST"
    else "GET"
  }

  /** The form header, sent apart from the header map. */
  function FormHeaders(c: Cli, env: Environment, boundary: string): Result<seq<Header>, BuildError> {
    if c.forms == [] then Ok([])
    else
      var value :- HeaderValue(env.formType(boundary));
      Ok([(CONTENT_TYPE, value)])
  }

  predicate IsUpload(c: Cli) {
    c.forms == [] && c.body.None? && c.uploadFile.Some?
  }

  function BodyFor(c: Cli, env: Environment, boundary: string): Result<Body, BuildError> {
    if c.forms != [] then
      var parts :- FormParts(env, c.forms);
      Ok(Multipart(boundary, parts))
    else if c.body.Some? then Ok(Typed(c.body.value))
    else if c.uploadFile.Some? then
      match env.readFile(c.uploadFile.value)
      case None => Err(UnreadableFile)
      case Some(contents) => Ok(Uploaded(contents))
    else Ok(Empty)
  }

  function TypedHeaders(c: Cli, env: Environment, m: seq<Header>): Result<seq<Header>, BuildError> {
    if IsUpload(c) then
      var value :- HeaderValue(env.mimeOf(c.uploadFile.value));
      Ok(Insert(m, CONTENT_TYPE, value))
    else Ok(m)
  }

  function Assembled(c: Cli, env: Environment, boundary: string, uri: string): Result<Message, BuildError> {
    var base :- BaseHeaders(c);
    var form :- FormHeaders(c, env, boundary);
    var body :- BodyFor(c, env, boundary);
    var typed :- TypedHeaders(c, env, base);
    var headers :- UserHeaders(typed, c.headers);
    if IsToken(MethodFor(c)) then
      Ok(Message(MethodFor(c), uri, Http2PriorKnowledge in c.flags, form + headers, body))
    else Err(InvalidMethod)
  }

  predicate CanBeLogged(c: Cli, headers: seq<Header>) {
    c.verbosity >= 1 ==> forall i | 0 <= i < |headers| :: IsPrintable(headers[i].1)
  }

  /** With `-v`, a request is given up if one of its headers cannot be logged. */
  function RequestFor(c: Cli, env: Environment, boundary: string, uri: string): Result<Message, BuildError> {
    var m :- Assembled(c, env, boundary, uri);
    if CanBeLogged(c, m.headers) then Ok(m) else Err(UnprintableHeader)
  }

  lemma {:induction false} UserHeadersFail(m: seq<Header>, xs: seq<string>, k: nat)
    requires k <= |xs| && UserHeaders(m, xs[..k]).Err?
    ensures UserHeaders(m, xs) == Err(UserHeaders(m, xs[..k]).error)
  {
    if k < |xs| {
      assert xs[..|xs| - 1][..k] == xs[..k];
      UserHeadersFail(m, xs[..|xs| - 1], k);
    } else {
      assert xs[..k] == xs;
    }
  }

  lemma {:induction false} FormPartsFail(env: Environment, forms: seq<string>, k: nat)
    requires k <= |forms| && FormParts(env, forms[..k]).Err?
    ensures FormParts(env, forms) == Err(FormParts(env, forms[..k]).error)
  {
    if k < |forms| {
      assert forms[..|forms| - 1][..k] == forms[..k];
      FormPartsFail(env, forms[..|forms| - 1], k);
    } else {
      assert forms[..k] == forms;
    }
  }

  method ReadForm(env: Environment, forms: seq<string>) returns (r: Result<seq<Part>, BuildError>)
    ensures r == FormParts(env, forms)
  {
    var parts := [];
    for i := 0 to |forms|
      invariant FormParts(env, forms[..i]) == Ok(parts)
    {
      assert forms[..i + 1][..i] == forms[..i];
      var part := ParsePart(env, forms[i]);
      if part.Err? {
        FormPartsFail(env, forms, i + 1);
        return Err(part.error);
      }
      parts := parts + [part.value];
    }
    assert forms[..|forms|] == forms;
    r := Ok(parts);
  }

  method AddUserHeaders(m: seq<Header>, xs: seq<string>) returns (r: Result<seq<Header>, BuildError>)
    ensures r == UserHeaders(m, xs)
  {
    var headers := m;
    for i := 0 to |xs|
      invariant UserHeaders(m, xs[..i]) == Ok(headers)
    {
      assert xs[..i + 1][..i] == xs[..i];
      var h := ParseHeader(xs[i]);
      if h.Err? {
        UserHeadersFail(m, xs, i + 1);
        return Err(h.error);
      }
      headers := Insert(headers, h.value.0, h.value.1);
    }
    assert xs[..|xs|] == xs;
    r := Ok(headers);
  }

  /** The verbose log stops at the first header that is not printable. */
  method LogHeaders(headers: seq<Header>) returns (printable: bool)
    ensures printable <==> forall i | 0 <= i < |headers| :: IsPrintable(headers[i].1)
  {
    for i := 0 to |headers|
      invariant forall k | 0 <= k < i :: IsPrintable(headers[k].1)
    {
      if !IsPrintable(headers[i].1) {
        return false;
      }
    }
    printable := true;
  }

  /** The builder as it runs: the method, the content type, the header map and the body are
      overwritten by one rule after another. */
  method AssembleRequest(c: Cli, env: Environment, boundary: string, uri: string)
    returns (r: Result<Message, BuildError>)
    ensures r == Assembled(c, env, boundary, uri)
  {
    hide Insert, HeaderValue, FormParts, UserHeaders, IsToken;
    var requestMethod := "GET";
    var contentType := None;
    if c.body.Some? {
      requestMethod := "POST";
      contentType := Some(URLENCODED);
    }
    if c.uploadFile.Some? {
      requestMethod := "PUT";
    }
    if c.requestMethod.Some? {
      requestMethod := c.requestMethod.value;
    }
    if c.forms != [] {
      requestMethod := "POST";
    }
    if Head in c.flags {
      requestMethod := "HEAD";
    }
    var headerMap: seq<Header> := [];
    if contentType.Some? {
      headerMap := Insert(headerMap, CONTENT_TYPE, contentType.value);
    }
    headerMap := Insert(headerMap, ACCEPT, "*/*");
    var agent :- HeaderValue(if c.userAgent.Some? then c.userAgent.value else DEFAULT_AGENT);
    headerMap := Insert(headerMap, USER_AGENT, agent);
    if c.cookie.Some? {
      var cookie :- HeaderValue(c.cookie.value);
      headerMap := Insert(headerMap, COOKIE, cookie);
    }
    assert BaseHeaders(c) == Ok(headerMap);

    var sent: seq<Header> := [];
    var body := Empty;
    if c.forms != [] {
      var formHeader :- HeaderValue(env.formType(boundary));
      sent := [(CONTENT_TYPE, formHeader)];
      requestMethod := "POST";
      var parts :- ReadForm(env, c.forms);
      body := Multipart(boundary, parts);
    } else if c.body.Some? {
      body := Typed(c.body.value);
    } else if c.uploadFile.Some? {
      var contents := env.readFile(c.uploadFile.value);
      if contents.None? {
        return Err(UnreadableFile);
      }
      body := Uploaded(contents.value);
      var mime :- HeaderValue(env.mimeOf(c.uploadFile.value));
      headerMap := Insert(headerMap, CONTENT_TYPE, mime);
    }
    assert requestMethod == MethodFor(c) && FormHeaders(c, env, boundary) == Ok(sent);

    headerMap :- AddUserHeaders(headerMap, c.headers);
    sent := sent + headerMap;
    if !IsToken(requestMethod) {
      return Err(InvalidMethod);
    }
    r := Ok(Message(requestMethod, uri, Http2PriorKnowledge in c.flags, sent, body));
  }

  /** Assembled, then logged if the user asked for it. */
  method BuildRequest(c: Cli, env: Environment, boundary: string, uri: string)
    returns (r: Result<Message, BuildError>)
    ensures r == RequestFor(c, env, boundary, uri)
  {
    hide Assembled;
    var request :- AssembleRequest(c, env, boundary, uri);
    if c.verbosity >= 1 {
      var printable := LogHeaders(request.headers);
      if !printable {
        return Err(UnprintableHeader);
      }
    }
    r := Ok(request);
  }

  // ---------- Header maps ----------

  lemma {:induction false} InsertLookup(m: seq<Header>, name: string, value: string, other: string)
    ensures Lookup(Insert(m, name, value), other) == if other == name then Some(value) else Lookup(m, other)
    ensures |Values(Insert(m, name, value), other)| ==
            if other == name && Values(m, name) == [] then 1 else |Values(m, other)|
  {
    if m != [] && m[0].0 != name {
      InsertLookup(m[1..], name, value, other);
    }
  }

  lemma {:induction false} LookupIsFirst(m: seq<Header>, name: string)
    ensures Lookup(m, name) == if Values(m, name) == [] then None else Some(Values(m, name)[0])
  {
    if m != [] {
      LookupIsFirst(m[1..], name);
    }
  }

  lemma InsertKeepsUnique(m: seq<Header>, name: string, value: string)
    requires HasUniqueNames(m)
    ensures HasUniqueNames(Insert(m, name, value))
  {
    forall other
      ensures |Values(Insert(m, name, value), other)| <= 1
    {
      InsertLookup(m, name, value, other);
      assert |Values(m, other)| <= 1;
    }
  }

  lemma {:induction false} ValuesConcat(a: seq<Header>, b: seq<Header>, name: string)
    ensures Values(a + b, name) == Values(a, name) + Values(b, name)
  {
    if a == [] {
      assert a + b == b;
    } else {
      assert (a + b)[0] == a[0] && (a + b)[1..] == a[1..] + b;
      ValuesConcat(a[1..], b, name);
      var head := if a[0].0 == name then [a[0].1] else [];
      assert Values(a, name) == head + Values(a[1..], name);
      assert Values(a + b, name) == head + Values(a[1..] + b, name);
    }
  }

  // ---------- The last header wins ----------

  /** The value of the last `-H` argument with this name. */
  function LastGiven(xs: seq<string>, name: string): Option<string> {
    if xs == [] then None
    else
      var h := ParseHeader(xs[|xs| - 1]);
      if h.Ok? && h.value.0 == name then Some(h.value.1) else LastGiven(xs[..|xs| - 1], name)
  }

  /** What the builder sets without any `-H`. */
  function DefaultHeader(c: Cli, env: Environment, name: string): Option<string> {
    if name == CONTENT_TYPE then
      if IsUpload(c) then Some(env.mimeOf(c.uploadFile.value))
      else if c.body.Some? then Some(URLENCODED)
      else None
    else if name == ACCEPT then Some("*/*")
    else if name == USER_AGENT then Some(if c.userAgent.Some? then c.userAgent.value else DEFAULT_AGENT)
    else if name == COOKIE then c.cookie
    else None
  }

  function EffectiveHeader(c: Cli, env: Environment, name: string): Option<string> {
    if LastGiven(c.headers, name).Some? then LastGiven(c.headers, name) else DefaultHeader(c, env, name)
  }

  lemma BaseLookup(c: Cli, name: string)
    requires BaseHeaders(c).Ok?
    ensures HasUniqueNames(BaseHeaders(c).value)
    ensures Lookup(BaseHeaders(c).value, name) ==
            if name == CONTENT_TYPE then (if c.body.Some? then Some(URLENCODED) else None)
            else if name == ACCEPT then Some("*/*")
            else if name == USER_AGENT then Some(if c.userAgent.Some? then c.userAgent.value else DEFAULT_AGENT)
            else if name == COOKIE then c.cookie
            else None
  {
    hide Insert, Lookup, Values, HasUniqueNames;
    NamesDiffer();
    EmptyMap(name);
    var typed := if c.body.Some? then Insert([], CONTENT_TYPE, URLENCODED) else [];
    InsertLookup([], CONTENT_TYPE, URLENCODED, name);
    InsertKeepsUnique([], CONTENT_TYPE, URLENCODED);
    var accepting := Insert(typed, ACCEPT, "*/*");
    InsertLookup(typed, ACCEPT, "*/*", name);
    InsertKeepsUnique(typed, ACCEPT, "*/*");
    var agent := if c.userAgent.Some? then c.userAgent.value else DEFAULT_AGENT;
    var named := Insert(accepting, USER_AGENT, agent);
    InsertLookup(accepting, USER_AGENT, agent, name);
    InsertKeepsUnique(accepting, USER_AGENT, agent);
    if c.cookie.Some? {
      InsertLookup(named, COOKIE, c.cookie.value, name);
      InsertKeepsUnique(named, COOKIE, c.cookie.value);
    }
  }

  lemma EmptyMap(name: string)
    ensures HasUniqueNames([]) && Lookup([], name) == None
  {
  }

  lemma NamesDiffer()
    ensures CONTENT_TYPE != ACCEPT && CONTENT_TYPE != USER_AGENT && CONTENT_TYPE != COOKIE
    ensures ACCEPT != USER_AGENT && ACCEPT != COOKIE && USER_AGENT != COOKIE
  {
    assert |CONTENT_TYPE| == 12 && |ACCEPT| == 6 && |USER_AGENT| == 10 && ACCEPT[0] == 'a' && COOKIE[0] == 'c';
  }

  lemma {:induction false} UserLookup(m: seq<Header>, xs: seq<string>, name: string)
    requires UserHeaders(m, xs).Ok? && HasUniqueNames(m)
    ensures HasUniqueNames(UserHeaders(m, xs).value)
    ensures Lookup(UserHeaders(m, xs).value, name) ==
            if LastGiven(xs, name).Some? then LastGiven(xs, name) else Lookup(m, name)
  {
    if xs != [] {
      var n := |xs| - 1;
      UserLookup(m, xs[..n], name);
      var before, h := UserHeaders(m, xs[..n]).value, ParseHeader(xs[n]).value;
      InsertLookup(before, h.0, h.1, name);
      InsertKeepsUnique(before, h.0, h.1);
    }
  }

  lemma TypedLookup(c: Cli, env: Environment, name: string)
    requires BaseHeaders(c).Ok? && TypedHeaders(c, env, BaseHeaders(c).value).Ok?
    ensures HasUniqueNames(TypedHeaders(c, env, BaseHeaders(c).value).value)
    ensures Lookup(TypedHeaders(c, env, BaseHeaders(c).value).value, name) == DefaultHeader(c, env, name)
  {
    BaseLookup(c, name);
    if IsUpload(c) {
      InsertLookup(BaseHeaders(c).value, CONTENT_TYPE, env.mimeOf(c.uploadFile.value), name);
      InsertKeepsUnique(BaseHeaders(c).value, CONTENT_TYPE, env.mimeOf(c.uploadFile.value));
    }
  }

  /** Every name in a built request: the form's own content type, then the value of the last
      matching `-H` or else the default; nothing more. */
  lemma HeadersOf(c: Cli, env: Environment, boundary: string, uri: string, name: string)
    requires RequestFor(c, env, boundary, uri).Ok?
    ensures Values(RequestFor(c, env, boundary, uri).value.headers, name) ==
            (if c.forms != [] && name == CONTENT_TYPE then [env.formType(boundary)] else []) +
            (if EffectiveHeader(c, env, name).Some? then [EffectiveHeader(c, env, name).value] else [])
  {
    hide Assembled, EffectiveHeader;
    AssembledHeaders(c, env, boundary, uri, name);
  }

  lemma AssembledHeaders(c: Cli, env: Environment, boundary: string, uri: string, name: string)
    requires Assembled(c, env, boundary, uri).Ok?
    ensures Values(Assembled(c, env, boundary, uri).value.headers, name) ==
            (if c.forms != [] && name == CONTENT_TYPE then [env.formType(boundary)] else []) +
            (if EffectiveHeader(c, env, name).Some? then [EffectiveHeader(c, env, name).value] else [])
  {
    hide Assembled, BaseHeaders, FormHeaders, TypedHeaders, UserHeaders, EffectiveHeader;
    hide Lookup, LastGiven, DefaultHeader, Values;
    RequestHeaders(c, env, boundary, uri);
    var typed := TypedHeaders(c, env, BaseHeaders(c).value).value;
    var own := UserHeaders(typed, c.headers).value;
    var form := FormHeaders(c, env, boundary).value;
    TypedLookup(c, env, name);
    UserLookup(typed, c.headers, name);
    EffectiveLookup(c, env, name, typed);
    LookupIsFirst(own, name);
    assert |Values(own, name)| <= 1;
    ValuesConcat(form, own, name);
    FormValues(c, env, boundary, name);
  }

  lemma FormValues(c: Cli, env: Environment, boundary: string, name: string)
    requires FormHeaders(c, env, boundary).Ok?
    ensures Values(FormHeaders(c, env, boundary).value, name) ==
            if c.forms != [] && name == CONTENT_TYPE then [env.formType(boundary)] else []
  {
    var form := FormHeaders(c, env, boundary).value;
    assert form != [] ==> form[1..] == [];
  }

  lemma RequestHeaders(c: Cli, env: Environment, boundary: string, uri: string)
    requires Assembled(c, env, boundary, uri).Ok?
    ensures BaseHeaders(c).Ok? && FormHeaders(c, env, boundary).Ok?
    ensures TypedHeaders(c, env, BaseHeaders(c).value).Ok?
    ensures UserHeaders(TypedHeaders(c, env, BaseHeaders(c).value).value, c.headers).Ok?
    ensures Assembled(c, env, boundary, uri).value.headers ==
            FormHeaders(c, env, boundary).value +
            UserHeaders(TypedHeaders(c, env, BaseHeaders(c).value).value, c.headers).value
  {
  }

  lemma EffectiveLookup(c: Cli, env: Environment, name: string, typed: seq<Header>)
    requires Lookup(typed, name) == DefaultHeader(c, env, name)
    ensures EffectiveHeader(c, env, name) ==
            if LastGiven(c.headers, name).Some? then LastGiven(c.headers, name) else Lookup(typed, name)
  {
  }

  /** A name occurs at most once, except that the content type occurs twice, exactly when form
      parts come with a body or a `-H` content type. */
  lemma OnlyContentTypeRepeats(c: Cli, env: Environment, boundary: string, uri: string, name: string)
    requires RequestFor(c, env, boundary, uri).Ok?
    ensures |Values(RequestFor(c, env, boundary, uri).value.headers, name)| <= 2
    ensures |Values(RequestFor(c, env, boundary, uri).value.headers, name)| == 2 <==>
            name == CONTENT_TYPE && c.forms != [] && (c.body.Some? || LastGiven(c.headers, CONTENT_TYPE).Some?)
  {
    HeadersOf(c, env, boundary, uri, name);
  }

  // ---------- A built request, rule by rule ----------

  /** What a form argument becomes: its text up to the first `=` names the part, and a `@` behind
      that makes it a file. */
  lemma PartExactly(env: Environment, form: string, n: nat)
    requires n < |form| && form[n] == '=' && '=' !in form[..n]
    ensures var name, value := form[..n], form[n + 1..];
            && (value == "" || value[0] != '@' ==> ParsePart(env, form) == Ok(Field(name, value)))
            && (value != "" && value[0] == '@' ==>
                  var path := Text.Remove(value, '@');
                  ParsePart(env, form) ==
                  if env.baseName(path).None? then Err(NoFileName)
                  else if env.readFile(env.baseName(path).value).None? then Err(UnreadableFile)
                  else Ok(File(name, env.baseName(path).value, env.mimeOf(path),
                               env.readFile(env.baseName(path).value).value)))
  {
    Text.IndexIsFirst(form, '=', n);
  }

  lemma PartNeedsEquals(env: Environment, form: string)
    requires '=' !in form
    ensures ParsePart(env, form) == Err(FormWithoutEquals)
  {
  }

  /** What a header argument becomes: a name of token characters up to the first colon, and a value
      without the blanks before it. */
  lemma HeaderExactly(x: string, n: nat)
    requires n < |x| && x[n] == ':' && ':' !in x[..n]
    ensures var name, value := x[..n], Text.TrimStart(x[n + 1..]);
            ParseHeader(x) ==
            if !(0 < n < 65536) || exists i :: 0 <= i < n && !IsTokenChar(name[i]) then Err(InvalidHeaderName)
            else if !IsHeaderValue(value) then Err(InvalidHeaderValue)
            else Ok((Text.Lower(name), value))
  {
    Text.IndexIsFirst(x, ':', n);
  }

  lemma HeaderNeedsColon(x: string)
    requires ':' !in x
    ensures ParseHeader(x) == Err(HeaderWithoutColon)
  {
  }

  lemma {:induction false} PartsInOrder(env: Environment, forms: seq<string>)
    requires FormParts(env, forms).Ok?
    ensures |FormParts(env, forms).value| == |forms|
    ensures forall i | 0 <= i < |forms| :: ParsePart(env, forms[i]) == Ok(FormParts(env, forms).value[i])
  {
    hide ParsePart;
    if forms != [] {
      PartsInOrder(env, forms[..|forms| - 1]);
    }
  }

  /** The method, address, version and body of a built request. A form posts whatever else is asked
      for; `-I` beats `-X`, which beats the method that an upload or a body would choose. */
  lemma RequestExactly(c: Cli, env: Environment, boundary: string, uri: string)
    requires RequestFor(c, env, boundary, uri).Ok?
    ensures var m := RequestFor(c, env, boundary, uri).value;
            && (c.forms != [] ==> m.requestMethod == "POST")
            && (c.forms == [] && Head in c.flags ==> m.requestMethod == "HEAD")
            && (c.forms == [] && Head !in c.flags ==>
                  && (c.requestMethod.Some? ==> m.requestMethod == c.requestMethod.value)
                  && (c.requestMethod.None? && c.uploadFile.Some? ==> m.requestMethod == "PUT")
                  && (c.requestMethod.None? && c.uploadFile.None? && c.body.Some? ==> m.requestMethod == "POST")
                  && (c.requestMethod.None? && c.uploadFile.None? && c.body.None? ==> m.requestMethod == "GET"))
            && m.uri == uri && (m.http2 <==> Http2PriorKnowledge in c.flags)
            && (c.forms != [] ==>
                  && m.body.Multipart? && m.body.boundary == boundary && |m.body.parts| == |c.forms|
                  && forall i | 0 <= i < |c.forms| :: ParsePart(env, c.forms[i]) == Ok(m.body.parts[i]))
            && (c.forms == [] && c.body.Some? ==> m.body == Typed(c.body.value))
            && (c.forms == [] && c.body.None? && c.uploadFile.Some? ==>
                  && env.readFile(c.uploadFile.value).Some?
                  && m.body == Uploaded(env.readFile(c.uploadFile.value).value))
            && (c.forms == [] && c.body.None? && c.uploadFile.None? ==> m.body == Empty)
  {
    hide BaseHeaders, TypedHeaders, UserHeaders, FormHeaders, IsToken, CanBeLogged, ParsePart, FormParts;
    if c.forms != [] {
      PartsInOrder(env, c.forms);
    }
  }

  lemma HeaderAt(name: string, value: string)
    requires ':' !in name && ParseHeader(name + ":" + value).Ok?
    ensures ParseHeader(name + ":" + value).value == (Text.Lower(name), Text.TrimStart(value))
  {
    var x := name + ":" + value;
    assert x[|name|] == ':' && x[..|name|] == name && x[|name| + 1..] == value;
    Text.IndexIsFirst(x, ':', |name|);
  }

  /** No argument from position `from` on gives a header of this lower-case name. */
  ghost predicate IsAbsentFrom(xs: seq<string>, from: nat, name: string) {
    forall k, p | from <= k < |xs| && 0 <= p < |xs[k]| && xs[k][p] == ':' && ':' !in xs[k][..p] ::
      Text.Lower(xs[k][..p]) != name
  }

  lemma OtherName(x: string, name: string)
    requires ParseHeader(x).Ok?
    requires forall p | 0 <= p < |x| && x[p] == ':' && ':' !in x[..p] :: Text.Lower(x[..p]) != name
    ensures ParseHeader(x).value.0 != name
  {
    hide Text.Lower;
    var n := Text.IndexOf(x, ':');
    assert x[n] == ':';
  }

  lemma {:induction false} UserHeadersParse(m: seq<Header>, xs: seq<string>)
    requires UserHeaders(m, xs).Ok?
    ensures forall k | 0 <= k < |xs| :: ParseHeader(xs[k]).Ok?
  {
    hide ParseHeader;
    if xs != [] {
      UserHeadersParse(m, xs[..|xs| - 1]);
    }
  }

  lemma {:induction false} LastGivenIs(xs: seq<string>, i: int, name: string, value: string)
    requires -1 <= i < |xs| && (forall k | 0 <= k < |xs| :: ParseHeader(xs[k]).Ok?)
    requires i >= 0 ==> ParseHeader(xs[i]).value == (name, value)
    requires IsAbsentFrom(xs, i + 1, name)
    ensures LastGiven(xs, name) == if i >= 0 then Some(value) else None
  {
    hide ParseHeader;
    if xs != [] {
      var n := |xs| - 1;
      if i < n {
        OtherName(xs[n], name);
        LastGivenIs(xs[..n], i, name, value);
      }
    }
  }

  lemma GivenHeadersParse(c: Cli, env: Environment, boundary: string, uri: string)
    requires RequestFor(c, env, boundary, uri).Ok?
    ensures forall k | 0 <= k < |c.headers| :: ParseHeader(c.headers[k]).Ok?
  {
    hide Assembled, ParseHeader, UserHeaders, BaseHeaders, TypedHeaders, FormHeaders;
    RequestHeaders(c, env, boundary, uri);
    UserHeadersParse(TypedHeaders(c, env, BaseHeaders(c).value).value, c.headers);
  }

  /** Among the `-H` arguments of one name, in any case, the last one counts: its value, without the
      blanks before it, is the last of the name in the request, and the only one besides the form's
      own content type. */
  lemma LastHeaderWins(c: Cli, env: Environment, boundary: string, uri: string, i: nat, name: string, value: string)
    requires RequestFor(c, env, boundary, uri).Ok?
    requires i < |c.headers| && c.headers[i] == name + ":" + value && ':' !in name
    requires forall k, p | i < k < |c.headers| && 0 <= p < |c.headers[k]| && c.headers[k][p] == ':'
                           && ':' !in c.headers[k][..p] ::
               Text.Lower(c.headers[k][..p]) != Text.Lower(name)
    ensures Values(RequestFor(c, env, boundary, uri).value.headers, Text.Lower(name)) ==
            (if c.forms != [] && Text.Lower(name) == "content-type" then [env.formType(boundary)] else []) +
            [Text.TrimStart(value)]
  {
    hide RequestFor, ParseHeader, LastGiven, Text.Lower, Text.TrimStart, DefaultHeader;
    var lower, given := Text.Lower(name), Text.TrimStart(value);
    GivenHeadersParse(c, env, boundary, uri);
    HeaderAt(name, value);
    assert IsAbsentFrom(c.headers, i + 1, lower);
    LastGivenIs(c.headers, i, lower, given);
    HeadersOf(c, env, boundary, uri, lower);
  }

  /** A header that no `-H` argument gives: the four that the program sets, and no other. */
  lemma DefaultsExactly(c: Cli, env: Environment, boundary: string, uri: string, name: string)
    requires RequestFor(c, env, boundary, uri).Ok?
    requires forall k, p | 0 <= k < |c.headers| && 0 <= p < |c.headers[k]| && c.headers[k][p] == ':'
                           && ':' !in c.headers[k][..p] ::
               Text.Lower(c.headers[k][..p]) != name
    ensures var values := Values(RequestFor(c, env, boundary, uri).value.headers, name);
            && (name == "accept" ==> values == ["*/*"])
            && (name == "user-agent" ==>
                  values == [if c.userAgent.Some? then c.userAgent.value else "rcurl/0.0.35"])
            && (name == "cookie" ==> values == if c.cookie.Some? then [c.cookie.value] else [])
            && (name == "content-type" ==>
                  values ==
                  (if c.forms != [] then [env.formType(boundary)] else []) +
                  (if c.body.Some? then ["application/x-www-form-urlencoded"]
                   else if c.forms == [] && c.uploadFile.Some? then [env.mimeOf(c.uploadFile.value)]
                   else []))
            && (name !in ["accept", "user-agent", "cookie", "content-type"] ==> values == [])
  {
    hide RequestFor, ParseHeader, LastGiven, Text.Lower;
    GivenHeadersParse(c, env, boundary, uri);
    assert IsAbsentFrom(c.headers, 0, name);
    LastGivenIs(c.headers, -1, name, "");
    NamesDiffer();
    HeadersOf(c, env, boundary, uri, name);
  }

  // ---------- When a request can be built ----------

  /** The characters of a method or header name: visible ASCII, but no delimiter of section 5.6.2 of
      RFC 9110. */
  lemma TokenCharsExactly(c: char)
    ensures IsTokenChar(c) <==> 0x21 <= c as int <= 0x7E && c !in "\"(),/:;<=>?@[\\]{}"
  {
  }

  lemma TokenExactly(s: string)
    ensures IsToken(s) <==>
            |s| > 0 && forall i | 0 <= i < |s| :: 0x21 <= s[i] as int <= 0x7E && s[i] !in "\"(),/:;<=>?@[\\]{}"
  {
    hide IsTokenChar;
    forall i | 0 <= i < |s|
      ensures IsTokenChar(s[i]) <==> 0x21 <= s[i] as int <= 0x7E && s[i] !in "\"(),/:;<=>?@[\\]{}"
    {
      TokenCharsExactly(s[i]);
    }
  }

  /** A header value has no control character but the tab; one that can be logged nothing beyond
      ASCII either. */
  lemma ValueCharsExactly(s: string)
    ensures IsHeaderValue(s) <==>
            forall i | 0 <= i < |s| :: s[i] as int == 9 || (s[i] as int >= 32 && s[i] as int != 127)
    ensures IsPrintable(s) <==>
            forall i | 0 <= i < |s| :: s[i] as int == 9 || 32 <= s[i] as int <= 126
  {
  }

  /** Without `-v` the log asks nothing of the headers; with it, once or more, every value must be
      printable. */
  lemma LogExactly(c: Cli, env: Environment, boundary: string, uri: string)
    ensures c.verbosity == 0 ==> RequestFor(c, env, boundary, uri) == Assembled(c, env, boundary, uri)
    ensures c.verbosity > 0 && Assembled(c, env, boundary, uri).Ok? ==>
              var m := Assembled(c, env, boundary, uri).value;
              RequestFor(c, env, boundary, uri) ==
              if forall i, j | 0 <= i < |m.headers| && 0 <= j < |m.headers[i].1| ::
                   m.headers[i].1[j] as int == 9 || 32 <= m.headers[i].1[j] as int <= 126
              then Ok(m) else Err(UnprintableHeader)
  {
    hide Assembled, IsPrintable;
    if Assembled(c, env, boundary, uri).Ok? {
      var m := Assembled(c, env, boundary, uri).value;
      forall i | 0 <= i < |m.headers|
        ensures IsPrintable(m.headers[i].1) <==>
                forall j | 0 <= j < |m.headers[i].1| ::
                  m.headers[i].1[j] as int == 9 || 32 <= m.headers[i].1[j] as int <= 126
      {
        ValueCharsExactly(m.headers[i].1);
      }
    }
  }

  lemma DefaultAgentIsValid()
    ensures IsHeaderValue(DEFAULT_AGENT)
  {
  }

  predicate HeaderIsValid(x: string) {
    ':' in x &&
    var n := Text.IndexOf(x, ':');
    IsToken(x[..n]) && n < 0x1_0000 && IsHeaderValue(Text.TrimStart(x[n + 1..]))
  }

  predicate FormIsReadable(env: Environment, form: string) {
    '=' in form &&
    var n := Text.IndexOf(form, '=');
    n + 1 < |form| && form[n + 1] == '@' ==>
      var file := env.baseName(Text.Remove(form[n + 1..], '@'));
      file.Some? && env.readFile(file.value).Some?
  }

  predicate IsAssembled(c: Cli, env: Environment, boundary: string) {
    && (c.userAgent.Some? ==> IsHeaderValue(c.userAgent.value))
    && (c.cookie.Some? ==> IsHeaderValue(c.cookie.value))
    && (c.forms != [] ==> IsHeaderValue(env.formType(boundary)))
    && (forall i | 0 <= i < |c.forms| :: FormIsReadable(env, c.forms[i]))
    && (IsUpload(c) ==> env.readFile(c.uploadFile.value).Some? && IsHeaderValue(env.mimeOf(c.uploadFile.value)))
    && (forall i | 0 <= i < |c.headers| :: HeaderIsValid(c.headers[i]))
    && IsToken(MethodFor(c))
  }

  lemma ParseHeaderExactly(x: string)
    ensures ParseHeader(x).Ok? <==> HeaderIsValid(x)
  {
  }

  lemma ParsePartExactly(env: Environment, form: string)
    ensures ParsePart(env, form).Ok? <==> FormIsReadable(env, form)
  {
  }

  lemma {:induction false} UserHeadersExactly(m: seq<Header>, xs: seq<string>)
    ensures UserHeaders(m, xs).Ok? <==> forall i | 0 <= i < |xs| :: HeaderIsValid(xs[i])
  {
    hide ParseHeader, HeaderIsValid, Insert;
    if xs != [] {
      UserHeadersExactly(m, xs[..|xs| - 1]);
      ParseHeaderExactly(xs[|xs| - 1]);
    }
  }

  lemma {:induction false} FormPartsExactly(env: Environment, forms: seq<string>)
    ensures FormParts(env, forms).Ok? <==> forall i | 0 <= i < |forms| :: FormIsReadable(env, forms[i])
  {
    hide ParsePart, FormIsReadable;
    if forms != [] {
      FormPartsExactly(env, forms[..|forms| - 1]);
      ParsePartExactly(env, forms[|forms| - 1]);
    }
  }

  /** With `-v`, no header that is sent goes beyond ASCII; one that was overridden may. */
  ghost predicate IsLoggable(c: Cli, env: Environment, boundary: string) {
    c.verbosity >= 1 ==>
      && (c.forms != [] ==> IsPrintable(env.formType(boundary)))
      && (forall name :: EffectiveHeader(c, env, name).Some? ==> IsPrintable(EffectiveHeader(c, env, name).value))
  }

  lemma {:induction false} ValuesAreHeaders(m: seq<Header>, name: string, v: string)
    requires v in Values(m, name)
    ensures exists i :: 0 <= i < |m| && m[i].1 == v
  {
    if m[0].0 == name && m[0].1 == v {
    } else {
      ValuesAreHeaders(m[1..], name, v);
      var i :| 0 <= i < |m[1..]| && m[1..][i].1 == v;
      assert m[i + 1].1 == v;
    }
  }

  lemma {:induction false} HeadersAreValues(m: seq<Header>, i: nat)
    requires i < |m|
    ensures m[i].1 in Values(m, m[i].0)
  {
    if i > 0 {
      assert m[i] == m[1..][i - 1];
      HeadersAreValues(m[1..], i - 1);
    }
  }

  lemma LoggableExactly(c: Cli, env: Environment, boundary: string, uri: string)
    requires Assembled(c, env, boundary, uri).Ok?
    ensures CanBeLogged(c, Assembled(c, env, boundary, uri).value.headers) <==> IsLoggable(c, env, boundary)
  {
    hide Assembled, EffectiveHeader, IsPrintable, Values;
    var headers := Assembled(c, env, boundary, uri).value.headers;
    if c.verbosity >= 1 && CanBeLogged(c, headers) {
      forall name, v | v in Values(headers, name)
        ensures IsPrintable(v)
      {
        ValuesAreHeaders(headers, name, v);
      }
      AssembledHeaders(c, env, boundary, uri, CONTENT_TYPE);
      if c.forms != [] {
        assert env.formType(boundary) in Values(headers, CONTENT_TYPE);
      }
      forall name | EffectiveHeader(c, env, name).Some?
        ensures IsPrintable(EffectiveHeader(c, env, name).value)
      {
        AssembledHeaders(c, env, boundary, uri, name);
        assert EffectiveHeader(c, env, name).value in Values(headers, name);
      }
    }
    if c.verbosity >= 1 && IsLoggable(c, env, boundary) {
      forall i | 0 <= i < |headers|
        ensures IsPrintable(headers[i].1)
      {
        HeadersAreValues(headers, i);
        AssembledHeaders(c, env, boundary, uri, headers[i].0);
      }
    }
  }

  /** Building fails exactly for the reasons listed. */
  lemma BuildableExactly(c: Cli, env: Environment, boundary: string, uri: string)
    ensures RequestFor(c, env, boundary, uri).Ok? <==>
            && (c.userAgent.Some? ==> IsHeaderValue(c.userAgent.value))
            && (c.cookie.Some? ==> IsHeaderValue(c.cookie.value))
            && (c.forms != [] ==> IsHeaderValue(env.formType(boundary)))
            && (forall i | 0 <= i < |c.forms| :: ParsePart(env, c.forms[i]).Ok?)
            && (c.forms == [] && c.body.None? && c.uploadFile.Some? ==>
                  env.readFile(c.uploadFile.value).Some? && IsHeaderValue(env.mimeOf(c.uploadFile.value)))
            && (forall i | 0 <= i < |c.headers| :: ParseHeader(c.headers[i]).Ok?)
            && (c.forms == [] && Head !in c.flags && c.requestMethod.Some? ==> IsToken(c.requestMethod.value))
            && (c.verbosity >= 1 ==>
                  && (c.forms != [] ==> IsPrintable(env.formType(boundary)))
                  && (forall name :: EffectiveHeader(c, env, name).Some? ==>
                        IsPrintable(EffectiveHeader(c, env, name).value)))
  {
    hide Assembled, CanBeLogged, ParseHeader, ParsePart, HeaderIsValid, FormIsReadable;
    hide IsToken, IsHeaderValue, MethodFor;
    AssembledExactly(c, env, boundary, uri);
    MethodIsToken(c);
    forall i | 0 <= i < |c.forms|
      ensures ParsePart(env, c.forms[i]).Ok? <==> FormIsReadable(env, c.forms[i])
    {
      ParsePartExactly(env, c.forms[i]);
    }
    forall i | 0 <= i < |c.headers|
      ensures ParseHeader(c.headers[i]).Ok? <==> HeaderIsValid(c.headers[i])
    {
      ParseHeaderExactly(c.headers[i]);
    }
    if Assembled(c, env, boundary, uri).Ok? {
      LoggableExactly(c, env, boundary, uri);
    }
  }

  /** Only a method given with `-X` can be invalid. */
  lemma MethodIsToken(c: Cli)
    ensures IsToken(MethodFor(c)) <==>
            (c.forms == [] && Head !in c.flags && c.requestMethod.Some? ==> IsToken(c.requestMethod.value))
  {
  }

  lemma AssembledExactly(c: Cli, env: Environment, boundary: string, uri: string)
    ensures Assembled(c, env, boundary, uri).Ok? <==> IsAssembled(c, env, boundary)
  {
    hide Insert, FormParts, UserHeaders, HeaderIsValid, FormIsReadable, IsHeaderValue, IsToken;
    assert IsHeaderValue(DEFAULT_AGENT) by {
      DefaultAgentIsValid();
    }
    FormPartsExactly(env, c.forms);
    if BaseHeaders(c).Ok? {
      if TypedHeaders(c, env, BaseHeaders(c).value).Ok? {
        UserHeadersExactly(TypedHeaders(c, env, BaseHeaders(c).value).value, c.headers);
      }
    }
  }

  // ---------- The same request for another address ----------

  /** The same message for another address and, if it holds form parts, with another boundary, which
      shows in the form's own content type. */
  function Rebound(m: Message, env: Environment, boundary: string, uri: string): Message {
    if m.body.Multipart? && m.headers != [] then
      m.(uri := uri, headers := [(CONTENT_TYPE, env.formType(boundary))] + m.headers[1..],
         body := Multipart(boundary, m.body.parts))
    else m.(uri := uri)
  }

  lemma BuiltForItsAddress(c: Cli, env: Environment, boundary: string, uri: string)
    requires RequestFor(c, env, boundary, uri).Ok?
    ensures RequestFor(c, env, boundary, uri).value.uri == uri
  {
    hide BaseHeaders, TypedHeaders, UserHeaders, FormParts, IsToken, CanBeLogged;
  }

  lemma AssembledAgain(c: Cli, env: Environment, b1: string, b2: string, u1: string, u2: string)
    requires Assembled(c, env, b1, u1).Ok? && Assembled(c, env, b2, u2).Ok?
    ensures Assembled(c, env, b2, u2).value == Rebound(Assembled(c, env, b1, u1).value, env, b2, u2)
    ensures c.forms == [] ==> !Assembled(c, env, b1, u1).value.body.Multipart?
  {
    hide BaseHeaders, TypedHeaders, UserHeaders, FormParts, IsToken, HeaderValue, MethodFor;
    HeaderValueIsItself(env.formType(b1));
    HeaderValueIsItself(env.formType(b2));
    var m1, m2 := Assembled(c, env, b1, u1).value, Assembled(c, env, b2, u2).value;
    if c.forms != [] {
      var own := UserHeaders(TypedHeaders(c, env, BaseHeaders(c).value).value, c.headers).value;
      assert m1.headers == [(CONTENT_TYPE, env.formType(b1))] + own;
      assert m1.headers[1..] == own;
      assert m2.headers == [(CONTENT_TYPE, env.formType(b2))] + own;
    }
  }

  lemma HeaderValueIsItself(s: string)
    ensures HeaderValue(s).Ok? ==> HeaderValue(s).value == s
  {
  }

  /** A request depends on the command line and the files only: rebuilt for another address and with
      another boundary, it differs in nothing else. Without form parts it differs in the address
      alone, and is built for every address or for none. */
  lemma OnlyTheAddressChanges(c: Cli, env: Environment, b1: string, b2: string, u1: string, u2: string)
    ensures var first, second := RequestFor(c, env, b1, u1), RequestFor(c, env, b2, u2);
            && (first.Ok? && second.Ok? ==> second.value == Rebound(first.value, env, b2, u2))
            && (c.forms == [] && first.Ok? ==> second == Ok(first.value.(uri := u2)))
            && (c.forms == [] && first.Err? ==> second == first)
  {
    hide Assembled, CanBeLogged;
    if RequestFor(c, env, b1, u1).Ok? && RequestFor(c, env, b2, u2).Ok? {
      AssembledAgain(c, env, b1, b2, u1, u2);
    }
    if c.forms == [] {
      AssembledWithoutForms(c, env, b1, b2, u1, u2);
    }
  }

  lemma AssembledWithoutForms(c: Cli, env: Environment, b1: string, b2: string, u1: string, u2: string)
    requires c.forms == []
    ensures var first, second := Assembled(c, env, b1, u1), Assembled(c, env, b2, u2);
            if first.Ok? then second == Ok(first.value.(uri := u2)) else second == first
  {
    hide BaseHeaders, TypedHeaders, UserHeaders, IsToken;
  }
}
