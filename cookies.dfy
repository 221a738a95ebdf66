/**
 * The cookie preparation of scrape.py (lines 15-18 and 65-76): the exported browser cookies are
 * filtered to those of a ".linkedin.com" domain and rewritten in the shape the browser session
 * accepts, with defaults filled in and `sameSite` clamped to a value the browser knows.
 */
module Cookies {
  import opened Wrappers

  /** A value read from the cookie file by `json.load` (numbers are whole numbers here). */
  datatype Json =
    | JNull
    | JBool(b: bool)
    | JNum(n: int)
    | JStr(s: string)
    | JArr(items: seq<Json>)
    | JObj(fields: map<string, Json>)

  /** The exceptions the comprehension can raise; the first one ends the program. */
  datatype CookieError =
    | NotAnObject         // AttributeError: `c.get` on a list entry that is not a JSON object
    | NotIterable         // TypeError: `in` on a domain that is null, a boolean or a number
    | MissingKey(key: string)  // KeyError from `c["name"]`, `c["value"]` or `c["domain"]`
    | Unhashable          // TypeError: a list or object `sameSite` looked up in a set

  /** One entry of the rewritten list; `sameSite` is always one of VALID_SAMESITE. */
  datatype Cookie = Cookie(
    name: Json,
    value: Json,
    domain: Json,
    path: Json,
    secure: Json,
    httpOnly: Json,
    sameSite: string)

  /** VALID_SAMESITE (line 15). */
  const ValidSameSite: set<string> := {"Strict", "Lax", "None"}

  /** The text a kept cookie's domain must contain. */
  const LinkedInDomain: string := ".linkedin.com"

  /** `needle` occurs in `hay` starting at position `i`. */
  predicate OccursAt(hay: string, needle: string, i: int)
  {
    0 <= i <= |hay| - |needle| && hay[i..i + |needle|] == needle
  }

  /** `needle in hay` on two texts: `needle` occurs somewhere in `hay`. */
  predicate Contains(hay: string, needle: string)
  {
    exists i :: 0 <= i <= |hay| - |needle| && OccursAt(hay, needle, i)
  }

  /** `c.get(key, default)`. */
  function Get(c: map<string, Json>, key: string, default: Json): Json
  {
    if key in c then c[key] else default
  }

  /**
   * Line 75: `".linkedin.com" in c.get("domain", "")`. A text is searched for the substring, a
   * list for an equal element and an object for an equal key; the other values are not
   * containers and `in` raises.
   */
  function DomainMatches(c: map<string, Json>): (r: Result<bool, CookieError>)
    ensures "domain" !in c ==> r == Success(false)
    ensures r == Success(true) ==> "domain" in c
    ensures r.Failure? <==> "domain" in c && (c["domain"].JNull? || c["domain"].JBool? || c["domain"].JNum?)
    ensures "domain" in c && c["domain"].JStr? ==> r == Success(Contains(c["domain"].s, LinkedInDomain))
    ensures "domain" in c && c["domain"].JArr? ==> r == Success(JStr(LinkedInDomain) in c["domain"].items)
    ensures "domain" in c && c["domain"].JObj? ==> r == Success(LinkedInDomain in c["domain"].fields)
  {
    match Get(c, "domain", JStr(""))
    case JStr(s) => Success(Contains(s, LinkedInDomain))
    case JArr(items) => Success(JStr(LinkedInDomain) in items)
    case JObj(fields) => Success(LinkedInDomain in fields)
    case _ => Failure(NotIterable)
  }

  /**
   * normalize_samesite (lines 17-18) applied to `c.get("sameSite")` (None when the key is
   * missing): a valid value is kept, anything else becomes "Lax". Looking a list or an object
   * up in a set raises, since neither can be hashed.
   */
  function NormalizeSameSite(value: Option<Json>): (r: Result<string, CookieError>)
    ensures r.Failure? <==> value.Some? && (value.value.JArr? || value.value.JObj?)
    ensures r.Failure? ==> r.error == Unhashable
    ensures r.Success? ==> r.value in ValidSameSite
    ensures r.Success? && value.Some? && value.value.JStr? && value.value.s in ValidSameSite ==>
              r.value == value.value.s
    ensures r.Success? && !(value.Some? && value.value.JStr? && value.value.s in ValidSameSite) ==>
              r.value == "Lax"
  {
    match value
    case None => Success("Lax")
    case Some(JStr(s)) => Success(if s in ValidSameSite then s else "Lax")
    case Some(JArr(_)) => Failure(Unhashable)
    case Some(JObj(_)) => Failure(Unhashable)
    case Some(_) => Success("Lax")
  }

  /** Normalising a normalised value changes nothing. */
  lemma NormalizeSameSiteIdempotent(value: Option<Json>)
    requires NormalizeSameSite(value).Success?
    ensures NormalizeSameSite(Some(JStr(NormalizeSameSite(value).value))) == NormalizeSameSite(value)
  {
  }

  /**
   * Lines 66-74: the rewritten cookie. The entries are evaluated in order, so a missing
   * "name" is reported before a missing "value", and both before an unhashable "sameSite".
   */
  function BuildCookie(c: map<string, Json>): (r: Result<Cookie, CookieError>)
    ensures r.Success? <==>
              "name" in c && "value" in c && "domain" in c && NormalizeSameSite(if "sameSite" in c then Some(c["sameSite"]) else None).Success?
    ensures r.Failure? ==>
              r.error == (if "name" !in c then MissingKey("name")
                          else if "value" !in c then MissingKey("value")
                          else if "domain" !in c then MissingKey("domain")
                          else Unhashable)
    ensures r.Success? ==>
              && r.value.name == c["name"] && r.value.value == c["value"] && r.value.domain == c["domain"]
              && ("path" in c ==> r.value.path == c["path"]) && ("path" !in c ==> r.value.path == JStr("/"))
              && ("secure" in c ==> r.value.secure == c["secure"]) && ("secure" !in c ==> r.value.secure == JBool(true))
              && ("httpOnly" in c ==> r.value.httpOnly == c["httpOnly"])
              && ("httpOnly" !in c ==> r.value.httpOnly == JBool(false))
              && r.value.sameSite == NormalizeSameSite(if "sameSite" in c then Some(c["sameSite"]) else None).value
  {
    if "name" !in c then Failure(MissingKey("name"))
    else if "value" !in c then Failure(MissingKey("value"))
    else if "domain" !in c then Failure(MissingKey("domain"))
    else
      match NormalizeSameSite(if "sameSite" in c then Some(c["sameSite"]) else None)
      case Failure(e) => Failure(e)
      case Success(sameSite) =>
        Success(Cookie(c["name"], c["value"], c["domain"], Get(c, "path", JStr("/")),
                       Get(c, "secure", JBool(true)), Get(c, "httpOnly", JBool(false)), sameSite))
  }

  /**
   * The test is a substring search, not a suffix or host match: a subdomain and a longer host
   * that merely contains the text are kept, while the bare "linkedin.com" is not.
   */
  lemma DomainExamples()
    ensures DomainMatches(map["domain" := JStr(".www.linkedin.com")]) == Success(true)
    ensures DomainMatches(map["domain" := JStr("a.linkedin.com.example")]) == Success(true)
    ensures DomainMatches(map["domain" := JStr("linkedin.com")]) == Success(false)
    ensures DomainMatches(map["domain" := JStr(".linkedin.co")]) == Success(false)
  {
    assert OccursAt(".www.linkedin.com", LinkedInDomain, 4);
    assert OccursAt("a.linkedin.com.example", LinkedInDomain, 1);
    assert !Contains(".linkedin.co", LinkedInDomain) by {
      assert |".linkedin.co"| < |LinkedInDomain|;
    }
  }

  /** Lines 65-76: filter the cookie list by domain and rewrite the kept ones, in order. */
  function NormalizeCookies(raw: seq<Json>): (r: Result<seq<Cookie>, CookieError>)
    ensures r.Success? ==> |r.value| <= |raw|
    ensures r.Success? ==> forall i :: 0 <= i < |r.value| ==> r.value[i].sameSite in ValidSameSite
  {
    if raw == [] then Success([])
    else if !raw[0].JObj? then Failure(NotAnObject)
    else
      match DomainMatches(raw[0].fields)
      case Failure(e) => Failure(e)
      case Success(false) => NormalizeCookies(raw[1..])
      case Success(true) =>
        match BuildCookie(raw[0].fields)
        case Failure(e) => Failure(e)
        case Success(cookie) =>
          match NormalizeCookies(raw[1..])
          case Failure(e) => Failure(e)
          case Success(rest) => Success([cookie] + rest)
  }

  /** An entry the comprehension gets through: an object whose domain test does not raise. */
  predicate Passes(j: Json)
  {
    j.JObj? && DomainMatches(j.fields).Success? &&
    (DomainMatches(j.fields).value ==> BuildCookie(j.fields).Success?)
  }

  /** An entry the comprehension keeps. */
  predicate Kept(j: Json)
  {
    j.JObj? && DomainMatches(j.fields) == Success(true)
  }

  /** Reference definition: the kept entries, in input order. */
  function KeptEntries(raw: seq<Json>): (ks: seq<map<string, Json>>)
    ensures forall k :: k in ks ==> DomainMatches(k) == Success(true)
  {
    if raw == [] then []
    else (if Kept(raw[0]) then [raw[0].fields] else []) + KeptEntries(raw[1..])
  }

  /** The first entry that raises, with the exception it raises. */
  function FirstError(j: Json): CookieError
    requires !Passes(j)
  {
    if !j.JObj? then NotAnObject
    else if DomainMatches(j.fields).Failure? then DomainMatches(j.fields).error
    else BuildCookie(j.fields).error
  }

  /**
   * The comprehension succeeds exactly when every entry gets through, and then rewrites the
   * kept entries one for one, in order; otherwise it raises the error of the first entry that
   * does not get through.
   */
  lemma {:induction false} NormalizeCookiesMeaning(raw: seq<Json>)
    ensures NormalizeCookies(raw).Success? <==> forall i :: 0 <= i < |raw| ==> Passes(raw[i])
    ensures NormalizeCookies(raw).Success? ==>
              var out, ks := NormalizeCookies(raw).value, KeptEntries(raw);
              |out| == |ks| && forall i :: 0 <= i < |ks| ==> BuildCookie(ks[i]) == Success(out[i])
    ensures NormalizeCookies(raw).Failure? ==>
              exists i :: 0 <= i < |raw| && !Passes(raw[i]) && NormalizeCookies(raw).error == FirstError(raw[i]) &&
                          forall j :: 0 <= j < i ==> Passes(raw[j])
  {
    if raw != [] {
      NormalizeCookiesMeaning(raw[1..]);
      assert forall i :: 1 <= i < |raw| ==> raw[i] == raw[1..][i - 1];
      if NormalizeCookies(raw[1..]).Failure? && Passes(raw[0]) {
        var i :| 0 <= i < |raw[1..]| && !Passes(raw[1..][i]) &&
                 NormalizeCookies(raw[1..]).error == FirstError(raw[1..][i]) &&
                 forall j :: 0 <= j < i ==> Passes(raw[1..][j]);
        assert raw[i + 1] == raw[1..][i];
        assert forall j :: 0 <= j < i + 1 ==> Passes(raw[j]) by {
          forall j | 0 <= j < i + 1
            ensures Passes(raw[j])
          {
            if j > 0 {
              assert raw[j] == raw[1..][j - 1];
            }
          }
        }
      }
    }
  }

  /** The comprehension over two lists is the comprehension over each, joined. */
  lemma {:induction false} NormalizeCookiesAppend(a: seq<Json>, b: seq<Json>)
    ensures NormalizeCookies(a + b) ==
              match NormalizeCookies(a)
              case Failure(e) => Failure(e)
              case Success(x) =>
                match NormalizeCookies(b)
                case Failure(e) => Failure(e)
                case Success(y) => Success(x + y)
  {
    if a != [] {
      assert (a + b)[1..] == a[1..] + b;
      assert (a + b)[0] == a[0];
      NormalizeCookiesAppend(a[1..], b);
      if a[0].JObj? && DomainMatches(a[0].fields) == Success(true) && BuildCookie(a[0].fields).Success? &&
         NormalizeCookies(a[1..]).Success? && NormalizeCookies(b).Success? {
        var k, x, y := BuildCookie(a[0].fields).value, NormalizeCookies(a[1..]).value, NormalizeCookies(b).value;
        assert [k] + (x + y) == ([k] + x) + y;
      }
    } else {
      assert a + b == b;
      if NormalizeCookies(b).Success? {
        assert [] + NormalizeCookies(b).value == NormalizeCookies(b).value;
      }
    }
  }

  /** Every rewritten cookie has a domain that passes the test that kept it. */
  lemma {:induction false} NormalizedDomainsMatch(raw: seq<Json>)
    requires NormalizeCookies(raw).Success?
    ensures forall k :: k in NormalizeCookies(raw).value ==> DomainMatches(Fields(k)) == Success(true)
  {
    if raw != [] && raw[0].JObj? {
      NormalizedDomainsMatch(raw[1..]);
      if DomainMatches(raw[0].fields) == Success(true) {
        var k := BuildCookie(raw[0].fields).value;
        assert Fields(k)["domain"] == raw[0].fields["domain"];
      }
    }
  }

  /** The dictionary a rewritten cookie stands for. */
  function Fields(k: Cookie): (m: map<string, Json>)
    ensures m.Keys == {"name", "value", "domain", "path", "secure", "httpOnly", "sameSite"}
  {
    map["name" := k.name, "value" := k.value, "domain" := k.domain, "path" := k.path,
        "secure" := k.secure, "httpOnly" := k.httpOnly, "sameSite" := JStr(k.sameSite)]
  }

  /** The cookie list written back out as JSON. */
  function Render(out: seq<Cookie>): (js: seq<Json>)
    ensures |js| == |out| && forall i :: 0 <= i < |out| ==> js[i] == JObj(Fields(out[i]))
  {
    seq(|out|, i requires 0 <= i < |out| => JObj(Fields(out[i])))
  }

  /** Rewriting a cookie that is already in the browser's shape gives it back unchanged. */
  lemma BuildCookieFixesOwnOutput(k: Cookie)
    requires k.sameSite in ValidSameSite
    ensures BuildCookie(Fields(k)) == Success(k)
  {
  }

  /** Cookies already in the browser's shape with matching domains come through unchanged. */
  lemma {:induction false} NormalizeRendered(out: seq<Cookie>)
    requires forall k :: k in out ==> k.sameSite in ValidSameSite && DomainMatches(Fields(k)) == Success(true)
    ensures NormalizeCookies(Render(out)) == Success(out)
  {
    if out != [] {
      assert Render(out)[1..] == Render(out[1..]);
      assert out[0] in out;
      BuildCookieFixesOwnOutput(out[0]);
      NormalizeRendered(out[1..]);
      assert out == [out[0]] + out[1..];
    }
  }

  /** The normalisation is idempotent: running it on its own output changes nothing. */
  lemma NormalizeCookiesIdempotent(raw: seq<Json>)
    requires NormalizeCookies(raw).Success?
    ensures NormalizeCookies(Render(NormalizeCookies(raw).value)) == NormalizeCookies(raw)
  {
    NormalizeCookiesMeaning(raw);
    NormalizedDomainsMatch(raw);
    var out, ks := NormalizeCookies(raw).value, KeptEntries(raw);
    forall k | k in out
      ensures k.sameSite in ValidSameSite
    {
      var i :| 0 <= i < |out| && out[i] == k;
    }
    NormalizeRendered(out);
  }

  /** A cookie without a domain key is dropped, not reported. */
  lemma MissingDomainDropped(c: map<string, Json>, rest: seq<Json>)
    requires "domain" !in c
    ensures NormalizeCookies([JObj(c)] + rest) == NormalizeCookies(rest)
  {
    assert ([JObj(c)] + rest)[1..] == rest;
  }

  /** Worked case: a LinkedIn session cookie with no optional keys gets every default. */
  lemma DefaultsExample()
    ensures var c := map["name" := JStr("li_at"), "value" := JStr("x"), "domain" := JStr(".www.linkedin.com")];
            NormalizeCookies([JObj(c)]) ==
              Success([Cookie(JStr("li_at"), JStr("x"), JStr(".www.linkedin.com"), JStr("/"), JBool(true), JBool(false), "Lax")])
  {
    var c := map["name" := JStr("li_at"), "value" := JStr("x"), "domain" := JStr(".www.linkedin.com")];
    assert OccursAt(".www.linkedin.com", LinkedInDomain, 4);
    assert DomainMatches(c) == Success(true);
    assert [JObj(c)][1..] == [];
    var k := Cookie(JStr("li_at"), JStr("x"), JStr(".www.linkedin.com"), JStr("/"), JBool(true), JBool(false), "Lax");
    assert BuildCookie(c) == Success(k);
    assert [k] + [] == [k];
  }
}
