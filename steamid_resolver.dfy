/**
 * The Steam-ID resolver of routers/steamid_resolver.py: the text a user types
 * (a 17-digit id, a profile URL, a vanity URL or a bare vanity name) is turned
 * into a steamid, and an inventory load for that steamid is scheduled in the
 * background.
 *
 * The Steam vanity-URL service is a function from the name asked for to its
 * reply; the scheduled load is part of the endpoint's result.
 */
module SteamIdResolver {
  import opened Wrappers
  import opened Text
  import Inventory

  /** SUPPORTED_APPS: CS2, Dota 2, TF2 and Rust. */
  const SupportedApps: set<string> := {"730", "570", "440", "252490"}

  const HttpsScheme: string := "https://"
  const HttpScheme: string := "http://"
  const ProfilesPath: string := "steamcommunity.com/profiles/"
  const IdPath: string := "steamcommunity.com/id/"

  predicate StartsWith(s: string, prefix: string) {
    |prefix| <= |s| && s[..|prefix|] == prefix
  }

  /**
   * JUST_ID_RE under re.match: exactly 17 digits, where `$` also matches
   * before one final newline, which then stays in the steamid.
   */
  predicate IsJustId(text: string) {
    (|text| == 17 && AllDigits(text)) ||
    (|text| == 18 && AllDigits(text[..17]) && text[17] == '\n')
  }

  /**
   * The text after the optional `(?:https?://)?` of both URL patterns. A
   * text that starts with a scheme can only match with the scheme consumed,
   * since "steamcommunity.com" does not start with 'h'.
   */
  function AfterScheme(text: string): (rest: string)
    ensures |rest| <= |text| && rest == text[|text| - |rest|..]
  {
    if StartsWith(text, HttpsScheme) then text[|HttpsScheme|..]
    else if StartsWith(text, HttpScheme) then text[|HttpScheme|..]
    else text
  }

  /** The length of the longest run of digits at the front of `s` (`\d+` is greedy). */
  function DigitRun(s: string): (n: nat)
    ensures n <= |s| && AllDigits(s[..n])
    ensures n < |s| ==> !IsDigit(s[n])
    decreases |s|
  {
    if s == [] || !IsDigit(s[0]) then 0
    else
      var n := 1 + DigitRun(s[1..]);
      assert s[..n] == [s[0]] + s[1..][..n - 1];
      n
  }

  /** The length of the longest run of characters other than '/' at the front of `s` (`[^/]+` is greedy). */
  function NameRun(s: string): (n: nat)
    ensures n <= |s| && '/' !in s[..n]
    ensures n < |s| ==> s[n] == '/'
    decreases |s|
  {
    if s == [] || s[0] == '/' then 0
    else
      var n := 1 + NameRun(s[1..]);
      assert s[..n] == [s[0]] + s[1..][..n - 1];
      n
  }

  /** `STEAMID_RE.match(text).group(1)`: the digits after the profiles path, None if there are none. */
  function MatchProfile(text: string): (r: Option<string>)
    ensures r.Some? ==> r.value != [] && AllDigits(r.value)
  {
    var rest := AfterScheme(text);
    if !StartsWith(rest, ProfilesPath) then None
    else
      var tail := rest[|ProfilesPath|..];
      var n := DigitRun(tail);
      if n == 0 then None else Some(tail[..n])
  }

  /** `VANITY_RE.match(text).group(1)`: the name after the id path up to the next '/', None if it is empty. */
  function MatchVanity(text: string): (r: Option<string>)
    ensures r.Some? ==> r.value != [] && '/' !in r.value
  {
    var rest := AfterScheme(text);
    if !StartsWith(rest, IdPath) then None
    else
      var tail := rest[|IdPath|..];
      var n := NameRun(tail);
      if n == 0 then None else Some(tail[..n])
  }

  /** How the endpoint reads the text, in the order it tries the patterns. */
  datatype Classified =
    | DirectId(steamid: string)
    | ProfileUrl(steamid: string)
    | VanityUrl(name: string)
    | PlainName(name: string)

  function Classify(text: string): (c: Classified)
    ensures c.DirectId? <==> IsJustId(text)
    ensures c.DirectId? ==> c.steamid == text
    ensures c.ProfileUrl? <==> !IsJustId(text) && MatchProfile(text).Some?
    ensures c.VanityUrl? <==> !IsJustId(text) && MatchProfile(text).None? && MatchVanity(text).Some?
    ensures c.PlainName? ==> c.name == text
  {
    if IsJustId(text) then DirectId(text)
    else match MatchProfile(text)
      case Some(id) => ProfileUrl(id)
      case None =>
        match MatchVanity(text)
        case Some(name) => VanityUrl(name)
        case None => PlainName(text)
  }

  /** A text that starts with an optional scheme followed by `path`. */
  function Url(scheme: string, path: string, rest: string): string {
    scheme + path + rest
  }

  predicate IsScheme(scheme: string) {
    scheme == [] || scheme == HttpsScheme || scheme == HttpScheme
  }

  /**
   * Both URL paths start with 's', which no scheme does, so the optional
   * scheme group takes exactly the scheme that is there.
   */
  lemma AfterSchemeOf(scheme: string, path: string, rest: string)
    requires IsScheme(scheme) && (path == ProfilesPath || path == IdPath)
    ensures AfterScheme(Url(scheme, path, rest)) == path + rest
  {
    var tail := path + rest;
    assert tail[0] == 's';
    assert Url(scheme, path, rest) == scheme + tail;
    if scheme == [] {
      assert scheme + tail == tail;
      NoSchemeBefore(tail);
    } else if scheme == HttpsScheme {
      HttpsSchemeBefore(tail);
    } else {
      HttpSchemeBefore(tail);
    }
  }

  lemma NoSchemeBefore(tail: string)
    requires tail != [] && tail[0] == 's'
    ensures AfterScheme(tail) == tail
  {
    assert !StartsWith(tail, HttpsScheme) by {
      assert HttpsScheme[0] == 'h';
    }
    assert !StartsWith(tail, HttpScheme) by {
      assert HttpScheme[0] == 'h';
    }
  }

  lemma HttpsSchemeBefore(tail: string)
    ensures AfterScheme(HttpsScheme + tail) == tail
  {
    var text := HttpsScheme + tail;
    assert text[..|HttpsScheme|] == HttpsScheme;
    assert text[|HttpsScheme|..] == tail;
  }

  lemma HttpSchemeBefore(tail: string)
    requires tail != [] && tail[0] == 's'
    ensures AfterScheme(HttpScheme + tail) == tail
  {
    var text := HttpScheme + tail;
    assert !StartsWith(text, HttpsScheme) by {
      if |HttpsScheme| <= |text| {
        assert text[..|HttpsScheme|][4] == text[4] == ':';
        assert HttpsScheme[4] == 's';
      }
    }
    assert text[..|HttpScheme|] == HttpScheme;
    assert text[|HttpScheme|..] == tail;
  }

  /** A text with a non-digit among its first 17 characters is not a bare steamid. */
  lemma NotJustId(text: string, k: nat)
    requires k < 17 && k < |text| && !IsDigit(text[k])
    ensures !IsJustId(text)
  {
    if |text| == 18 {
      assert text[..17][k] == text[k];
    }
  }

  /**
   * A profile URL, with or without a scheme, yields the digits after the
   * profiles path up to the first non-digit; whatever follows is ignored.
   */
  lemma ProfileUrlYieldsDigits(scheme: string, digits: string, trailing: string)
    requires IsScheme(scheme) && digits != [] && AllDigits(digits)
    requires trailing == [] || !IsDigit(trailing[0])
    ensures Classify(Url(scheme, ProfilesPath, digits + trailing)) == ProfileUrl(digits)
  {
    var text := Url(scheme, ProfilesPath, digits + trailing);
    assert !IsJustId(text) by {
      assert text[|scheme|] == ProfilesPath[0] == 's';
      NotJustId(text, |scheme|);
    }
    assert MatchProfile(text) == Some(digits) by {
      AfterSchemeOf(scheme, ProfilesPath, digits + trailing);
      ProfileTail(digits + trailing);
      DigitRunOf(digits, trailing);
      assert (digits + trailing)[..|digits|] == digits;
    }
  }

  lemma ProfileTail(tail: string)
    ensures var rest := ProfilesPath + tail;
            StartsWith(rest, ProfilesPath) && rest[|ProfilesPath|..] == tail
  {
    var rest := ProfilesPath + tail;
    assert rest[..|ProfilesPath|] == ProfilesPath;
  }

  lemma {:induction false} DigitRunOf(digits: string, trailing: string)
    requires AllDigits(digits)
    requires trailing == [] || !IsDigit(trailing[0])
    ensures DigitRun(digits + trailing) == |digits|
    decreases |digits|
  {
    if digits == [] {
      assert digits + trailing == trailing;
    } else {
      assert (digits + trailing)[1..] == digits[1..] + trailing;
      DigitRunOf(digits[1..], trailing);
    }
  }

  lemma {:induction false} NameRunOf(name: string, trailing: string)
    requires '/' !in name
    requires trailing == [] || trailing[0] == '/'
    ensures NameRun(name + trailing) == |name|
    decreases |name|
  {
    if name == [] {
      assert name + trailing == trailing;
    } else {
      assert (name + trailing)[1..] == name[1..] + trailing;
      NameRunOf(name[1..], trailing);
    }
  }

  /**
   * A vanity URL, with or without a scheme, yields the name after the id
   * path up to the next '/'.
   */
  lemma {:induction false} IdPathIsNotProfilesPath(rest: string)
    requires StartsWith(rest, IdPath)
    ensures !StartsWith(rest, ProfilesPath)
  {
    assert rest[19] == IdPath[19] == 'i';
    assert ProfilesPath[19] == 'p';
  }

  lemma {:induction false} MatchVanityOf(name: string, trailing: string)
    requires name != [] && '/' !in name
    requires trailing == [] || trailing[0] == '/'
    ensures var rest := IdPath + (name + trailing);
            StartsWith(rest, IdPath) && rest[|IdPath|..] == name + trailing
    ensures NameRun(name + trailing) == |name| && (name + trailing)[..|name|] == name
  {
    var rest := IdPath + (name + trailing);
    assert rest[..|IdPath|] == IdPath;
    assert rest[|IdPath|..] == name + trailing;
    NameRunOf(name, trailing);
    assert (name + trailing)[..|name|] == name;
  }

  /**
   * A vanity URL, with or without a scheme, yields the name after the id
   * path up to the next '/'.
   */
  lemma VanityUrlYieldsName(scheme: string, name: string, trailing: string)
    requires IsScheme(scheme) && name != [] && '/' !in name
    requires trailing == [] || trailing[0] == '/'
    ensures Classify(Url(scheme, IdPath, name + trailing)) == VanityUrl(name)
  {
    var text := Url(scheme, IdPath, name + trailing);
    assert !IsJustId(text) by {
      assert text[|scheme|] == IdPath[0] == 's';
      NotJustId(text, |scheme|);
    }
    assert AfterScheme(text) == IdPath + (name + trailing) by {
      AfterSchemeOf(scheme, IdPath, name + trailing);
    }
    assert MatchProfile(text).None? by {
      IdPathIsNotProfilesPath(IdPath + (name + trailing));
    }
    assert MatchVanity(text) == Some(name) by {
      MatchVanityOf(name, trailing);
    }
  }

  /** A text of exactly 17 digits is taken as the steamid itself, before any URL pattern. */
  lemma SeventeenDigitsAreAnId(text: string)
    requires |text| == 17 && AllDigits(text)
    ensures Classify(text) == DirectId(text)
  {
  }

  // ---------------------------------------------------------------------
  // resolve_vanity and the endpoint
  // ---------------------------------------------------------------------

  /**
   * The ResolveVanityURL reply: unreachable (a network error or a body that
   * is not JSON), or the "success" and "steamid" members of its "response"
   * object, each None when absent.
   */
  datatype VanityReply = VanityUnreachable | VanityAnswer(success: Option<int>, steamid: Option<string>)

  datatype Resolution = Resolved(steamid: string) | NotFound | ResolveFailed

  /**
   * resolve_vanity: the steamid when success is 1; 404 for any other
   * success value; an unreachable service or a missing member raises, which
   * the endpoint turns into a server error.
   */
  function ResolveVanity(reply: VanityReply): (r: Resolution)
    ensures r.Resolved? <==> reply.VanityAnswer? && reply.success == Some(1) && reply.steamid.Some?
    ensures r.Resolved? ==> r.steamid == reply.steamid.value
    ensures r.NotFound? <==> reply.VanityAnswer? && reply.success.Some? && reply.success.value != 1
  {
    match reply
    case VanityUnreachable => ResolveFailed
    case VanityAnswer(success, steamid) =>
      match success
      case None => ResolveFailed
      case Some(s) =>
        if s != 1 then NotFound
        else match steamid
          case None => ResolveFailed
          case Some(id) => Resolved(id)
  }

  /** The endpoint's answer; Scheduled stands for {"status": "ok"} with one load queued for (steamid, appid). */
  datatype ResolverResponse =
    | UnsupportedApp
    | ProfileNotFound
    | ServerError
    | Scheduled(steamid: string, appid: string)

  function Scheduling(r: Resolution, appid: string): ResolverResponse {
    match r
    case Resolved(id) => Scheduled(id, appid)
    case NotFound => ProfileNotFound
    case ResolveFailed => ServerError
  }

  /**
   * resolve_and_trigger_inventory_load: an unsupported appid is refused with
   * 400 before the text is looked at; otherwise the text is classified, a
   * vanity name is resolved through `lookup`, and a load is scheduled for
   * the resulting steamid.
   */
  function ResolveAndTrigger(appid: string, text: string, lookup: string -> VanityReply): (r: ResolverResponse)
    ensures appid !in SupportedApps <==> r == UnsupportedApp
    ensures r.Scheduled? ==> r.appid == appid
  {
    if appid !in SupportedApps then UnsupportedApp
    else match Classify(text)
      case DirectId(id) => Scheduled(id, appid)
      case ProfileUrl(id) => Scheduled(id, appid)
      case VanityUrl(name) => Scheduling(ResolveVanity(lookup(name)), appid)
      case PlainName(name) => Scheduling(ResolveVanity(lookup(name)), appid)
  }

  /**
   * An id typed directly or taken from a profile URL needs no lookup: the
   * answer is the same whatever the vanity service would say, and a load is
   * always scheduled for a supported appid.
   */
  lemma IdsNeedNoLookup(appid: string, text: string, lookup1: string -> VanityReply, lookup2: string -> VanityReply)
    requires Classify(text).DirectId? || Classify(text).ProfileUrl?
    ensures ResolveAndTrigger(appid, text, lookup1) == ResolveAndTrigger(appid, text, lookup2)
    ensures appid in SupportedApps ==> ResolveAndTrigger(appid, text, lookup1) == Scheduled(Classify(text).steamid, appid)
  {
  }

  /**
   * A vanity URL or a bare name is resolved by asking the service for the
   * name alone: a load is scheduled exactly when the service answers
   * success 1 with a steamid, and then for that steamid.
   */
  lemma NamesAreResolved(appid: string, text: string, lookup: string -> VanityReply)
    requires appid in SupportedApps
    requires Classify(text).VanityUrl? || Classify(text).PlainName?
    ensures var reply := lookup(Classify(text).name);
            var r := ResolveAndTrigger(appid, text, lookup);
            (r.Scheduled? <==> reply.VanityAnswer? && reply.success == Some(1) && reply.steamid.Some?) &&
            (r.Scheduled? ==> r.steamid == reply.steamid.value) &&
            (r == ProfileNotFound <==> reply.VanityAnswer? && reply.success.Some? && reply.success.value != 1)
  {
  }

  /**
   * trigger_inventory_load: a GET of /inventory/{steamid}/{appid} made
   * without the user's session cookie, for one of the supported games (the
   * resolver schedules it only after checking the appid). The inventory
   * endpoint refuses it with 401 before loading anything, so the stored
   * inventory is unchanged.
   */
  method TriggerInventoryLoad(store: Inventory.InventoryStore, steamid: string, appid: string,
                              pages: seq<Inventory.PageResponse>, now: Inventory.Timestamp, fault: Inventory.DbFault)
    returns (resp: Inventory.EndpointResponse)
    requires appid in SupportedApps
    modifies store
    ensures store.table == old(store.table)
    ensures resp == Inventory.Unauthorized
  {
    assert appid != [] && AllDigits(appid);
    resp := Inventory.InventoryEndpoint(store, None, steamid, DigitsValue(appid), pages, now, fault);
  }
}
