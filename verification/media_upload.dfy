/** supabase/functions/admin-media-upload/index.ts: the function that hands
    an admin a signed URL to upload one file into the `media` bucket. The
    auth service is a map from `Authorization` header values to user ids,
    the clock is the `now` parameter and the storage service's answer is the
    `sign` parameter. */
module MediaUpload {
  import opened Wrappers
  import opened Text
  import opened Numbers
  import opened Js

  datatype Env = Env(supabaseUrl: string, serviceRoleKey: string, anonKey: string)

  /** The body as `req.json()` sees it: a parse failure or its `fileName`. */
  datatype Body = UnreadableBody(message: string) | JsonBody(fileName: JsValue)

  /** `authorization` is "" when the header is absent. */
  datatype Request = Request(verb: string, authorization: string, body: Body)

  /** The answer of `createSignedUploadUrl`; an empty message stands for an
      error without one (or no data). */
  datatype Signing = Signed(path: string, token: string, signedUrl: string) | SignFailed(message: string)

  datatype Reply =
    | Preflight
    | Failure(error: string)
    | Granted(path: string, token: string, signedUrl: string, publicUrl: string)

  datatype Response = Response(code: nat, reply: Reply)

  /** The characters `[a-zA-Z0-9._-]` a stored file name keeps. */
  predicate IsNameChar(c: char) {
    IsAlnum(c) || c == '.' || c == '_' || c == '-'
  }

  /** `fileName.replace(/[^a-zA-Z0-9._-]/g, "_")`. */
  function SafeName(fileName: string): (r: string)
    ensures |r| == |fileName|
    ensures forall i :: 0 <= i < |r| ==> IsNameChar(r[i])
    ensures forall i :: 0 <= i < |r| ==> r[i] == fileName[i] || (r[i] == '_' && !IsNameChar(fileName[i]))
  {
    Scrub(fileName, IsNameChar)
  }

  /** A name made only of kept characters is its own safe name. */
  lemma SafeNameOfSafe(fileName: string)
    requires forall i :: 0 <= i < |fileName| ==> IsNameChar(fileName[i])
    ensures SafeName(fileName) == fileName
  {
  }

  /** `uploads/<now>-<safe name>`. */
  function UploadPath(now: nat, safe: string): (r: string)
    ensures StartsWith(r, "uploads/")
    ensures EndsWith(r, "-" + safe)
  {
    var r := "uploads/" + NatToString(now) + "-" + safe;
    assert r[..8] == "uploads/";
    assert r[|r| - |safe| - 1..] == "-" + safe;
    r
  }

  /** Distinct times or distinct names give distinct paths: the time is the
      run of digits after `uploads/`, ended by the first "-". */
  lemma {:induction false} UploadPathInjective(now1: nat, safe1: string, now2: nat, safe2: string)
    requires UploadPath(now1, safe1) == UploadPath(now2, safe2)
    ensures now1 == now2 && safe1 == safe2
  {
    var p := UploadPath(now1, safe1);
    AfterUploads(now1, safe1);
    AfterUploads(now2, safe2);
    LeadingDigitsOf(NatToString(now1), "-" + safe1);
    LeadingDigitsOf(NatToString(now2), "-" + safe2);
    NatToStringInjective(now1, now2);
    assert "-" + safe1 == p[8 + |NatToString(now1)|..] == "-" + safe2;
    assert safe1 == ("-" + safe1)[1..];
  }

  lemma AfterUploads(now: nat, safe: string)
    ensures UploadPath(now, safe)[8..] == NatToString(now) + ("-" + safe)
  {
    var n := NatToString(now);
    assert "uploads/" + n + "-" + safe == "uploads/" + (n + ("-" + safe));
  }

  /** The public address of an object of the `media` bucket. */
  function PublicUrl(supabaseUrl: string, path: string): (r: string)
    ensures StartsWith(r, supabaseUrl) && EndsWith(r, "/media/" + path)
    ensures |r| == |supabaseUrl| + |PublicPrefix| + |path|
    ensures r[|supabaseUrl|..|r| - |path|] == PublicPrefix
    ensures r[|r| - |path|..] == path
  {
    var r := supabaseUrl + PublicPrefix + path;
    assert r[..|supabaseUrl|] == supabaseUrl;
    assert r[|r| - |"/media/" + path|..] == "/media/" + path;
    assert r[|supabaseUrl|..|r| - |path|] == PublicPrefix;
    r
  }

  /** The route of the `media` bucket's public objects. */
  const PublicPrefix := "/storage/v1/object/public/media/"

  /** Under one project URL, the public address determines the object path. */
  lemma PublicUrlInjective(supabaseUrl: string, path1: string, path2: string)
    requires PublicUrl(supabaseUrl, path1) == PublicUrl(supabaseUrl, path2)
    ensures path1 == path2
  {
    var r := PublicUrl(supabaseUrl, path1);
    assert path1 == r[|r| - |path1|..];
  }

  /** The trimmed `fileName` of the body, "" when it is missing or falsy. */
  function RequestedName(body: Body): (r: string)
    requires body.JsonBody?
    ensures r == "" <==> forall i :: 0 <= i < |TextOr(body.fileName)| ==> IsSpace(TextOr(body.fileName)[i])
    ensures |r| <= |TextOr(body.fileName)|
  {
    Trim(TextOr(body.fileName))
  }

  /** Not a preflight, and every environment variable is set. */
  predicate Ready(env: Env, req: Request) {
    req.verb != "OPTIONS" && env.supabaseUrl != "" && env.serviceRoleKey != "" && env.anonKey != ""
  }

  /** The `Authorization` header names a user the auth service knows and
      that user is in `admins`. */
  predicate AdminCaller(users: map<string, string>, admins: set<string>, req: Request) {
    req.authorization != "" && req.authorization in users && users[req.authorization] in admins
  }

  /** The handler (lines 20-90): each rung of the ladder answers exactly as
      the source does, in the source's order, and a grant carries the public
      address of the path built from the trimmed, scrubbed file name. */
  function Handle(env: Env, users: map<string, string>, admins: set<string>, now: nat, sign: Signing,
                  req: Request): (r: Response)
    ensures r.code in {200, 400, 401, 403, 500}
    ensures req.verb == "OPTIONS" ==> r == Response(200, Preflight)
    ensures (req.verb != "OPTIONS" && (env.supabaseUrl == "" || env.serviceRoleKey == "" || env.anonKey == ""))
      ==> r == Response(500, Failure("Missing Supabase environment configuration."))
    ensures Ready(env, req) && req.authorization == "" ==>
      r == Response(401, Failure("Missing authorization header."))
    ensures Ready(env, req) && req.authorization != "" && req.authorization !in users ==>
      r == Response(401, Failure("Unauthorized."))
    ensures Ready(env, req) && req.authorization != "" && req.authorization in users
            && users[req.authorization] !in admins ==>
      r == Response(403, Failure("Admin access required."))
    ensures Ready(env, req) && AdminCaller(users, admins, req) ==> r == Granting(env, now, sign, req.body)
    ensures r.code == 500 <==>
      || (req.verb != "OPTIONS" && (env.supabaseUrl == "" || env.serviceRoleKey == "" || env.anonKey == ""))
      || (Ready(env, req) && AdminCaller(users, admins, req) && req.body.UnreadableBody?)
    ensures r.code == 401 <==> Ready(env, req) && (req.authorization == "" || req.authorization !in users)
    ensures r.code == 403 <==> Ready(env, req) && req.authorization != "" && req.authorization in users
                               && users[req.authorization] !in admins
    ensures r.reply.Granted? ==>
      && Ready(env, req) && AdminCaller(users, admins, req)
      && req.body.JsonBody? && RequestedName(req.body) != ""
      && sign.Signed?
      && r.reply.publicUrl == PublicUrl(env.supabaseUrl, UploadPath(now, SafeName(RequestedName(req.body))))
      && r.reply.path == sign.path
  {
    if req.verb == "OPTIONS" then Response(200, Preflight)
    else if env.supabaseUrl == "" || env.serviceRoleKey == "" || env.anonKey == "" then
      Response(500, Failure("Missing Supabase environment configuration."))
    else if req.authorization == "" then Response(401, Failure("Missing authorization header."))
    else if req.authorization !in users then Response(401, Failure("Unauthorized."))
    else if users[req.authorization] !in admins then Response(403, Failure("Admin access required."))
    else Granting(env, now, sign, req.body)
  }

  /** Lines 63-86, once the caller is a known admin: an unreadable body is
      the catch block's 500, a blank file name is refused with 400, a
      signing failure answers 400 with the storage message (or a default),
      and a signed upload is granted with its public address. */
  function Granting(env: Env, now: nat, sign: Signing, body: Body): (r: Response)
    ensures r.code in {200, 400, 500}
    ensures body.UnreadableBody? ==> r == Response(500, Failure(body.message))
    ensures body.JsonBody? && RequestedName(body) == "" ==> r == Response(400, Failure("fileName is required."))
    ensures body.JsonBody? && RequestedName(body) != "" && sign.SignFailed? ==>
      && r.code == 400 && r.reply.Failure? && r.reply.error != ""
      && (sign.message != "" ==> r.reply.error == sign.message)
    ensures r.reply.Granted? <==> body.JsonBody? && RequestedName(body) != "" && sign.Signed?
    ensures r.reply.Granted? ==>
      && r.code == 200
      && r.reply == Granted(sign.path, sign.token, sign.signedUrl,
                            PublicUrl(env.supabaseUrl, UploadPath(now, SafeName(RequestedName(body)))))
  {
    match body
    case UnreadableBody(message) => Response(500, Failure(message))
    case JsonBody(_) =>
      var fileName := RequestedName(body);
      if fileName == "" then Response(400, Failure("fileName is required."))
      else
        var path := UploadPath(now, SafeName(fileName));
        match sign
        case SignFailed(message) =>
          Response(400, Failure(if message != "" then message else "Unable to create upload URL."))
        case Signed(p, token, url) => Response(200, Granted(p, token, url, PublicUrl(env.supabaseUrl, path)))
  }
}
