/** scripts/auth-identifier.js: the mapping from a username or login
    identifier to the synthetic e-mail address under which the account is
    registered with the authentication service. */
module AuthIdentifier {
  import opened Text
  import opened Js

  const AuthDomain := "@arteplus.local"

  /** The characters `normalizeUsername` keeps: `[a-z0-9._-]`. */
  predicate IsUsernameChar(c: char) {
    IsLower(c) || IsDigit(c) || c == '.' || c == '_' || c == '-'
  }

  predicate IsUsername(s: string) {
    forall i :: 0 <= i < |s| ==> IsUsernameChar(s[i])
  }

  /** `s` without its leading run of white space. */
  function SkipSpaces(s: string): (r: string)
    ensures |r| <= |s| && r == s[|s| - |r|..]
    ensures |s| > 0 && IsSpace(s[0]) ==> |r| < |s|
    ensures |r| > 0 ==> !IsSpace(r[0])
  {
    if |s| > 0 && IsSpace(s[0]) then SkipSpaces(s[1..]) else s
  }

  /** `replace(/\s+/g, ".")`: every maximal run of white space becomes one dot. */
  function CollapseSpaces(s: string): (r: string)
    ensures NoSpace(r)
    ensures |r| <= |s|
    decreases |s|
  {
    if |s| == 0 then ""
    else if IsSpace(s[0]) then "." + CollapseSpaces(SkipSpaces(s))
    else [s[0]] + CollapseSpaces(s[1..])
  }

  /** Text without white space is left alone by `CollapseSpaces`. */
  lemma {:induction false} CollapseSpacesNoSpace(s: string)
    requires NoSpace(s)
    ensures CollapseSpaces(s) == s
    decreases |s|
  {
    if |s| > 0 {
      CollapseSpacesNoSpace(s[1..]);
    }
  }

  /** A run of white space between a space-free prefix `w` and a `rest` that
      does not start with white space turns into exactly one dot. */
  lemma {:induction false} CollapseSpacesRun(w: string, run: string, rest: string)
    requires NoSpace(w)
    requires |run| > 0 && forall i :: 0 <= i < |run| ==> IsSpace(run[i])
    requires |rest| > 0 ==> !IsSpace(rest[0])
    ensures CollapseSpaces(w + run + rest) == w + "." + CollapseSpaces(rest)
    decreases |w|
  {
    var s := w + run + rest;
    if |w| == 0 {
      assert s == run + rest;
      SkipRun(run, rest);
    } else {
      assert s[1..] == w[1..] + run + rest;
      CollapseSpacesRun(w[1..], run, rest);
    }
  }

  lemma {:induction false} SkipRun(run: string, rest: string)
    requires forall i :: 0 <= i < |run| ==> IsSpace(run[i])
    requires |rest| > 0 ==> !IsSpace(rest[0])
    ensures SkipSpaces(run + rest) == rest
    decreases |run|
  {
    if |run| > 0 {
      assert (run + rest)[1..] == run[1..] + rest;
      SkipRun(run[1..], rest);
    } else {
      assert run + rest == rest;
    }
  }

  /** `replace(/[^a-z0-9._-]/g, "")`: drops every character outside `[a-z0-9._-]`. */
  function KeepUsernameChars(s: string): (r: string)
    ensures IsUsername(r)
    ensures |r| <= |s|
  {
    if |s| == 0 then ""
    else if IsUsernameChar(s[0]) then [s[0]] + KeepUsernameChars(s[1..])
    else KeepUsernameChars(s[1..])
  }

  lemma {:induction false} KeepUsernameCharsOfUsername(s: string)
    requires IsUsername(s)
    ensures KeepUsernameChars(s) == s
    decreases |s|
  {
    if |s| > 0 {
      KeepUsernameCharsOfUsername(s[1..]);
    }
  }

  /** `normalizeUsername`: `String(value || "")`, trimmed, lower-cased, white
      space runs turned into dots, then every character outside
      `[a-z0-9._-]` dropped. */
  function NormalizeUsername(value: JsValue): (r: string)
    ensures IsUsername(r)
    ensures !Truthy(value) ==> r == ""
  {
    KeepUsernameChars(CollapseSpaces(ToLower(Trim(TextOr(value)))))
  }

  /** A normalised username is a fixed point of normalisation. */
  lemma NormalizeUsernameIdempotent(value: JsValue)
    ensures NormalizeUsername(Str(NormalizeUsername(value))) == NormalizeUsername(value)
  {
    NormalizeUsernameOfUsername(NormalizeUsername(value));
  }

  /** Text made only of username characters normalises to itself. */
  lemma NormalizeUsernameOfUsername(u: string)
    requires IsUsername(u)
    ensures NormalizeUsername(Str(u)) == u
  {
    assert Trim(u) == u by { UsernameIsPlain(u); TrimOfTrimmed(u); }
    assert ToLower(u) == u by { UsernameIsPlain(u); ToLowerOfLower(u); }
    assert CollapseSpaces(u) == u by { UsernameIsPlain(u); CollapseSpacesNoSpace(u); }
    KeepUsernameCharsOfUsername(u);
    NormalizeText(Str(u), u);
  }

  /** Normalisation of a value whose text is `x`, step by step. */
  lemma NormalizeText(v: JsValue, x: string)
    requires TextOr(v) == x
    ensures NormalizeUsername(v) == KeepUsernameChars(CollapseSpaces(ToLower(Trim(x))))
  {
  }

  /** Username characters are neither white space nor upper-case. */
  lemma UsernameIsPlain(u: string)
    requires IsUsername(u)
    ensures NoSpace(u) && NoUpper(u)
    ensures |u| > 0 ==> !IsSpace(u[0]) && !IsSpace(u[|u| - 1])
  {
  }

  /** `usernameToAuthEmail`: "" for a username that normalises to nothing,
      otherwise the normalised username followed by `@arteplus.local`. The
      address has exactly one `@`, which starts the domain. */
  function UsernameToAuthEmail(username: JsValue): (r: string)
    ensures r == "" <==> NormalizeUsername(username) == ""
    ensures r != "" ==>
      && EndsWith(r, AuthDomain)
      && r[..|r| - |AuthDomain|] == NormalizeUsername(username)
      && IsUsername(r[..|r| - |AuthDomain|])
      && '@' !in r[..|r| - |AuthDomain|]
  {
    var normalized := NormalizeUsername(username);
    if normalized == "" then ""
    else
      WithDomain(normalized);
      normalized + AuthDomain
  }

  /** A username followed by the domain ends with the domain, and what
      precedes the domain is the username, which holds no `@`. */
  lemma WithDomain(u: string)
    requires IsUsername(u)
    ensures EndsWith(u + AuthDomain, AuthDomain)
    ensures (u + AuthDomain)[..|u|] == u && '@' !in u
  {
    var r := u + AuthDomain;
    assert r[|r| - |AuthDomain|..] == AuthDomain;
    assert r[..|u|] == u;
    assert forall i :: 0 <= i < |u| ==> IsUsernameChar(u[i]);
  }

  /** The domain part is lower-case and free of white space. */
  lemma DomainShape()
    ensures NoSpace(AuthDomain) && NoUpper(AuthDomain) && AuthDomain[0] == '@'
  {
  }

  /** An auth e-mail has no white space and no upper-case letter, and its
      only `@` is the one that starts the domain. */
  lemma AuthEmailShape(username: JsValue)
    ensures var r := UsernameToAuthEmail(username);
      r != "" ==> NoSpace(r) && NoUpper(r) && r[|r| - |AuthDomain|] == '@'
  {
    var u := NormalizeUsername(username);
    if u != "" {
      assert UsernameToAuthEmail(username) == u + AuthDomain;
      UsernameIsPlain(u);
      DomainShape();
      PlainConcat(u, AuthDomain);
    }
  }

  /** Joining two texts free of white space and upper case gives such a text. */
  lemma PlainConcat(a: string, b: string)
    requires NoSpace(a) && NoUpper(a) && NoSpace(b) && NoUpper(b)
    ensures NoSpace(a + b) && NoUpper(a + b)
  {
    forall i | 0 <= i < |a + b|
      ensures !IsSpace((a + b)[i]) && !IsUpper((a + b)[i])
    {
      if i >= |a| {
        assert (a + b)[i] == b[i - |a|];
      }
    }
  }

  /** Two usernames share an auth e-mail exactly when they normalise alike. */
  lemma AuthEmailInjective(a: JsValue, b: JsValue)
    requires UsernameToAuthEmail(a) == UsernameToAuthEmail(b) != ""
    ensures NormalizeUsername(a) == NormalizeUsername(b)
  {
  }

  /** `identifierToEmail`: "" for a blank identifier, the lower-cased text of
      an identifier containing `@`, and the synthetic auth e-mail otherwise. */
  function IdentifierToEmail(identifier: JsValue): (r: string)
    ensures Trim(TextOr(identifier)) == "" ==> r == ""
    ensures NoUpper(r)
    ensures '@' in Trim(TextOr(identifier)) ==> |r| == |Trim(TextOr(identifier))| && '@' in r
    ensures '@' !in Trim(TextOr(identifier)) ==> r == "" || EndsWith(r, AuthDomain)
    ensures '@' in Trim(TextOr(identifier)) ==> r == ToLower(Trim(TextOr(identifier)))
    ensures Trim(TextOr(identifier)) != "" && '@' !in Trim(TextOr(identifier)) ==>
      r == UsernameToAuthEmail(Str(Trim(TextOr(identifier))))
  {
    var raw := Trim(TextOr(identifier));
    if raw == "" then ""
    else if '@' in raw then LowerAddress(raw)
    else
      AuthEmailShape(Str(raw));
      UsernameToAuthEmail(Str(raw))
  }

  /** The lower-cased form of a text holding `@` still holds it. */
  function LowerAddress(raw: string): (r: string)
    requires '@' in raw
    ensures r == ToLower(raw) && '@' in r
  {
    var r := ToLower(raw);
    assert '@' in r by {
      var i :| 0 <= i < |raw| && raw[i] == '@';
      assert r[i] == '@';
    }
    r
  }

  /** Logging in with the username a user signed up with yields the address
      the account was registered under. */
  lemma LoginWithUsername(username: JsValue)
    requires '@' !in TextOr(username)
    ensures IdentifierToEmail(username) == UsernameToAuthEmail(username)
  {
    var raw := Trim(TextOr(username));
    if raw != "" {
      TrimKeepsAbsent(TextOr(username), '@');
      assert IdentifierToEmail(username) == UsernameToAuthEmail(Str(raw));
      TrimmedNormalizesAlike(username);
      SameNameSameEmail(Str(raw), username);
    } else {
      assert NormalizeUsername(username) == KeepUsernameChars(CollapseSpaces(ToLower("")));
    }
  }

  lemma SameNameSameEmail(a: JsValue, b: JsValue)
    requires NormalizeUsername(a) == NormalizeUsername(b)
    ensures UsernameToAuthEmail(a) == UsernameToAuthEmail(b)
  {
  }

  /** Normalising the trimmed text of a value is normalising the value. */
  lemma TrimmedNormalizesAlike(v: JsValue)
    ensures NormalizeUsername(Str(Trim(TextOr(v)))) == NormalizeUsername(v)
  {
    var raw := Trim(TextOr(v));
    TrimIdempotent(TextOr(v));
    NormalizeText(Str(raw), raw);
    NormalizeText(v, TextOr(v));
  }

  /** Logging in with the synthetic address itself yields that address. */
  lemma LoginWithAuthEmail(username: JsValue)
    requires UsernameToAuthEmail(username) != ""
    ensures IdentifierToEmail(Str(UsernameToAuthEmail(username))) == UsernameToAuthEmail(username)
  {
    var r := UsernameToAuthEmail(username);
    AuthEmailShape(username);
    PlainAddress(r, |r| - |AuthDomain|);
  }

  /** A text without white space or upper case that holds `@` is its own
      login e-mail. */
  lemma PlainAddress(r: string, at: nat)
    requires NoSpace(r) && NoUpper(r) && at < |r| && r[at] == '@'
    ensures IdentifierToEmail(Str(r)) == r
  {
    TrimOfTrimmed(r);
    ToLowerOfLower(r);
    assert TextOr(Str(r)) == r;
    AddressIdentifier(Str(r), r);
  }

  /** An identifier whose trimmed text holds `@` is lower-cased as it is. */
  lemma AddressIdentifier(v: JsValue, raw: string)
    requires Trim(TextOr(v)) == raw && '@' in raw
    ensures IdentifierToEmail(v) == ToLower(raw)
  {
  }
}
