/** Ingest URLs and the URL that a worker publishes to.

    `SplitUrl` and `JoinUrl` follow the URL functions of the Python library that the source calls, on text
    without control characters; `Reference` splits a URL independently of them, by the regular expression in
    appendix B of RFC 3986. */
module Urls {
  import opened Wrappers

  // ---------- text ----------

  /** Position of the first character of `s` that is in `stops`, or the length of `s`. */
  function FirstOf(s: string, stops: set<char>): (n: nat)
    ensures n <= |s|
    ensures forall i | 0 <= i < n :: s[i] !in stops
    ensures n < |s| ==> s[n] in stops
  {
    if s == "" || s[0] in stops then 0 else 1 + FirstOf(s[1..], stops)
  }

  /** Position behind the last occurrence of `c` in `s`, or 0. */
  function AfterLast(s: string, c: char): (n: nat)
    ensures n <= |s|
    ensures forall i | n <= i < |s| :: s[i] != c
    ensures n > 0 ==> s[n - 1] == c
  {
    if s == "" then 0
    else if s[|s| - 1] == c then |s|
    else AfterLast(s[..|s| - 1], c)
  }

  function StripLeft(s: string, c: char): (r: string)
    ensures |r| <= |s| && r == s[|s| - |r|..]
    ensures r == "" || r[0] != c
    ensures forall i | 0 <= i < |s| - |r| :: s[i] == c
  {
    if s != "" && s[0] == c then StripLeft(s[1..], c) else s
  }

  function StripRight(s: string, c: char): (r: string)
    ensures r <= s
    ensures r == "" || r[|r| - 1] != c
    ensures forall i | |r| <= i < |s| :: s[i] == c
  {
    if s != "" && s[|s| - 1] == c then StripRight(s[..|s| - 1], c) else s
  }

  function LowerChar(c: char): char {
    if 'A' <= c <= 'Z' then (c as int + 32) as char else c
  }

  /** Lower case, for ASCII text. */
  function Lower(s: string): (r: string)
    ensures |r| == |s|
    ensures forall i | 0 <= i < |s| :: r[i] == LowerChar(s[i])
  {
    seq(|s|, i requires 0 <= i < |s| => LowerChar(s[i]))
  }

  predicate IsControl(c: char) {
    c < ' ' || c == '\U{7F}'
  }

  predicate HasControl(s: string) {
    exists i | 0 <= i < |s| :: IsControl(s[i])
  }

  lemma {:induction false} FirstOfAppend(a: string, b: string, stops: set<char>)
    requires forall i | 0 <= i < |a| :: a[i] !in stops
    ensures FirstOf(a + b, stops) == |a| + FirstOf(b, stops)
  {
    if a != "" {
      assert (a + b)[1..] == a[1..] + b;
      FirstOfAppend(a[1..], b, stops);
    } else {
      assert a + b == b;
    }
  }

  // ---------- splitting and joining ----------

  datatype Parts = Parts(scheme: string, netloc: string, path: string, query: string, fragment: string)

  predicate IsLetter(c: char) {
    'a' <= c <= 'z' || 'A' <= c <= 'Z'
  }

  predicate IsSchemeChar(c: char) {
    IsLetter(c) || '0' <= c <= '9' || c in "+-."
  }

  /** Length of the scheme in front of the first colon; 0 when there is none. */
  function SchemeLength(url: string): (n: nat)
    ensures n == 0 || (n < |url| && url[n] == ':')
  {
    var i := FirstOf(url, {':'});
    if 0 < i < |url| && IsLetter(url[0]) && (forall j | 0 <= j < i :: IsSchemeChar(url[j])) then i else 0
  }

  /** What stands in front of and behind the first `c`; nothing behind it when there is no `c`. */
  function Cut(s: string, c: char): (string, string) {
    var n := FirstOf(s, {c});
    (s[..n], if n < |s| then s[n + 1..] else "")
  }

  /** The network location behind `//`, if there is one, and the text after it. */
  function SplitNetloc(s: string): (string, string) {
    if |s| >= 2 && s[..2] == "//" then
      var end := FirstOf(s[2..], {'/', '?', '#'});
      (s[2..][..end], s[2..][end..])
    else ("", s)
  }

  /** Everything behind the scheme. */
  function SplitBody(s: string): Parts {
    var (netloc, tail) := SplitNetloc(s);
    var (beforeFragment, fragment) := Cut(tail, '#');
    var (path, query) := Cut(beforeFragment, '?');
    Parts("", netloc, path, query, fragment)
  }

  function AfterScheme(url: string): string {
    var n := SchemeLength(url);
    if n == 0 then url else url[n + 1..]
  }

  function SplitText(url: string): Parts {
    SplitBody(AfterScheme(url)).(scheme := Lower(url[..SchemeLength(url)]))
  }

  /** `netlocOk` stands for the library's checks of bracketed hosts and of Unicode normalisation,
      which raise an error that the source does not handle. */
  function SplitUrl(value: string, netlocOk: string -> bool): Result<Parts> {
    var p := SplitText(StripLeft(value, ' '));
    if ('[' in p.netloc) != (']' in p.netloc) || !netlocOk(p.netloc) then Err(Fault) else Ok(p)
  }

  function HostInfo(netloc: string): string {
    netloc[AfterLast(netloc, '@')..]
  }

  function Host(netloc: string): string {
    var info := HostInfo(netloc);
    if '[' in info then Cut(Cut(info, '[').1, ']').0 else Cut(info, ':').0
  }

  function PortText(netloc: string): string {
    var info := HostInfo(netloc);
    if '[' in info then Cut(Cut(Cut(info, '[').1, ']').1, ':').1 else Cut(info, ':').1
  }

  function DecimalValue(s: string): nat
    requires forall i | 0 <= i < |s| :: '0' <= s[i] <= '9'
  {
    if s == "" then 0
    else
      var d := s[|s| - 1];
      assert '0' <= d <= '9';
      DecimalValue(s[..|s| - 1]) * 10 + (d as int - '0' as int)
  }

  predicate ValidPort(netloc: string) {
    var port := PortText(netloc);
    (forall i | 0 <= i < |port| :: '0' <= port[i] <= '9') && DecimalValue(port) <= 65535
  }

  /** A user name or password that is not empty, in front of the last `@`. */
  predicate HasCredentials(netloc: string) {
    var at := AfterLast(netloc, '@');
    at > 0 && (var (user, password) := Cut(netloc[..at - 1], ':'); user != "" || password != "")
  }

  function JoinUrl(p: Parts): string
    requires p.scheme != "" && p.netloc != ""
  {
    p.scheme + "://" + p.netloc +
    (if p.path != "" && p.path[0] != '/' then "/" else "") + p.path +
    (if p.query != "" then "?" + p.query else "") +
    (if p.fragment != "" then "#" + p.fragment else "")
  }

  // ---------- the validators ----------

  const MAX_LENGTH := 2048

  predicate AllowedParts(p: Parts) {
    && (p.scheme == "rtmp" || p.scheme == "rtmps")
    && Host(p.netloc) != "" && !HasCredentials(p.netloc) && p.fragment == ""
    && ValidPort(p.netloc)
  }

  lemma HostNeedsNetloc(netloc: string)
    requires Host(netloc) != ""
    ensures netloc != ""
  {
  }

  /** The normalised URL: scheme in lower case, no slash at the end of the path. */
  function ValidateIngestUrl(value: string, netlocOk: string -> bool): Result<string> {
    if value == "" || |value| > MAX_LENGTH || HasControl(value) then Err(Invalid)
    else
      var p :- SplitUrl(value, netlocOk);
      if !AllowedParts(p) then Err(Invalid)
      else
        HostNeedsNetloc(p.netloc);
        Ok(JoinUrl(p.(path := StripRight(p.path, '/'))))
  }

  function ValidateStreamKey(value: string): Result<string> {
    if value == "" || |value| > MAX_LENGTH || HasControl(value) then Err(Invalid) else Ok(value)
  }

  function BuildDestinationUrl(ingestUrl: string, streamKey: string, netlocOk: string -> bool): Result<string> {
    var base :- ValidateIngestUrl(ingestUrl, netlocOk);
    var key :- ValidateStreamKey(streamKey);
    if '?' in base then Err(Invalid) else Ok(base + "/" + StripLeft(key, '/'))
  }

  // ---------- RFC 3986 ----------

  /** Appendix B of RFC 3986: scheme, authority and path of a URI reference. */
  datatype UriReference = UriReference(scheme: Option<string>, authority: Option<string>, path: string)

  function Authority(s: string): (Option<string>, string) {
    if |s| >= 2 && s[0] == '/' && s[1] == '/' then
      var end := FirstOf(s[2..], {'/', '?', '#'});
      (Some(s[2..][..end]), s[2..][end..])
    else (None, s)
  }

  function Reference(s: string): UriReference {
    var n := FirstOf(s, {':', '/', '?', '#'});
    var hasScheme := 0 < n < |s| && s[n] == ':';
    var (authority, tail) := Authority(if hasScheme then s[n + 1..] else s);
    UriReference(if hasScheme then Some(s[..n]) else None, authority, tail[..FirstOf(tail, {'?', '#'})])
  }

  // ---------- the destination host cannot be replaced ----------

  predicate Free(s: string, stops: set<char>) {
    forall i | 0 <= i < |s| :: s[i] !in stops
  }

  lemma AuthorityOfAssembled(netloc: string, rest: string)
    requires Free(netloc, {'/', '?', '#'}) && (rest == "" || rest[0] in {'/', '?', '#'})
    ensures Authority("//" + (netloc + rest)) == (Some(netloc), rest)
    ensures SplitNetloc("//" + (netloc + rest)) == (netloc, rest)
  {
    var s := "//" + (netloc + rest);
    assert s[..2] == "//" && s[2..] == netloc + rest;
    FirstOfAppend(netloc, rest, {'/', '?', '#'});
    assert (netloc + rest)[..|netloc|] == netloc && (netloc + rest)[|netloc|..] == rest;
  }

  /** A URL put together from a scheme, an authority and what follows it is split at the same places. */
  lemma ReferenceOfAssembled(scheme: string, netloc: string, rest: string)
    requires scheme == "rtmp" || scheme == "rtmps"
    requires Free(netloc, {'/', '?', '#'}) && (rest == "" || rest[0] in {'/', '?', '#'})
    ensures Reference(scheme + (":" + ("//" + (netloc + rest)))) ==
            UriReference(Some(scheme), Some(netloc), rest[..FirstOf(rest, {'?', '#'})])
  {
    RfcSchemeOfAssembled(scheme, "//" + (netloc + rest));
    AuthorityOfAssembled(netloc, rest);
  }

  lemma RfcSchemeOfAssembled(scheme: string, body: string)
    requires scheme == "rtmp" || scheme == "rtmps"
    ensures var s := scheme + (":" + body);
            && FirstOf(s, {':', '/', '?', '#'}) == |scheme| < |s| && s[|scheme|] == ':'
            && s[..|scheme|] == scheme && s[|scheme| + 1..] == body
  {
    assert scheme[0] == 'r' && scheme[1] == 't' && scheme[2] == 'm' && scheme[3] == 'p';
    FirstOfAppend(scheme, ":" + body, {':', '/', '?', '#'});
  }

  lemma NetlocFacts(s: string)
    requires SplitNetloc(s).0 != ""
    ensures var (netloc, tail) := SplitNetloc(s);
            && Free(netloc, {'/', '?', '#'}) && (tail == "" || tail[0] in {'/', '?', '#'})
            && Authority(s) == (Some(netloc), tail) && |s| == 2 + |netloc| + |tail|
            && (!HasControl(s) ==> !HasControl(netloc) && !HasControl(tail))
  {
  }

  lemma TailFacts(tail: string)
    requires tail == "" || tail[0] in {'/', '?', '#'}
    ensures var (beforeFragment, fragment) := Cut(tail, '#');
            var (path, query) := Cut(beforeFragment, '?');
            && Free(path, {'?', '#'}) && Free(query, {'#'}) && (path == "" || path[0] == '/')
            && path == tail[..FirstOf(tail, {'?', '#'})]
  {
    hide FirstOf;
    CutTwice(tail);
  }

  lemma CutIsShort(s: string, c: char)
    ensures var (front, back) := Cut(s, c);
            && |front| + (if back == "" then 0 else 1 + |back|) <= |s|
            && (!HasControl(s) ==> !HasControl(front) && !HasControl(back))
  {
  }

  /** Parts that fit together without moving the boundaries between them. */
  predicate Clean(p: Parts, netlocOk: string -> bool) {
    && Free(p.netloc, {'/', '?', '#'}) && Free(p.path, {'?', '#'}) && Free(p.query, {'#'})
    && (p.path == "" || p.path[0] == '/')
    && netlocOk(p.netloc) && (('[' in p.netloc) == (']' in p.netloc))
  }

  lemma SplitIsClean(value: string, netlocOk: string -> bool, p: Parts)
    requires SplitUrl(value, netlocOk) == Ok(p) && p.netloc != ""
    ensures Clean(p, netlocOk)
  {
    BodyFacts(AfterScheme(StripLeft(value, ' ')));
  }

  lemma BodyFacts(s: string)
    requires SplitBody(s).netloc != ""
    ensures var p := SplitBody(s);
            && Free(p.netloc, {'/', '?', '#'}) && Free(p.path, {'?', '#'}) && Free(p.query, {'#'})
            && (p.path == "" || p.path[0] == '/')
  {
    NetlocFacts(s);
    TailFacts(SplitNetloc(s).1);
  }

  lemma BodyIsShort(s: string)
    requires SplitBody(s).netloc != "" && !HasControl(s)
    ensures Size(SplitBody(s)) <= |s| && PartsAreClear(SplitBody(s))
  {
    NetlocFacts(s);
    var tail := SplitNetloc(s).1;
    CutIsShort(tail, '#');
    CutIsShort(Cut(tail, '#').0, '?');
  }

  /** Length of the joined text behind the colon of the scheme. */
  function Size(p: Parts): nat {
    2 + |p.netloc| + |p.path| + (if p.query == "" then 0 else 1 + |p.query|)
  }

  predicate PartsAreClear(p: Parts) {
    !HasControl(p.netloc) && !HasControl(p.path) && !HasControl(p.query)
  }

  lemma TextIsShort(url: string)
    requires var p := SplitText(url); p.scheme != "" && p.netloc != ""
    requires !HasControl(url)
    ensures var p := SplitText(url); |p.scheme| + 1 + Size(p) <= |url| && PartsAreClear(p)
  {
    assert !HasControl(AfterScheme(url));
    BodyIsShort(AfterScheme(url));
  }

  lemma BodyAgreesWithReference(s: string)
    requires SplitBody(s).netloc != ""
    ensures var p := SplitBody(s);
            var (authority, tail) := Authority(s);
            authority == Some(p.netloc) && tail[..FirstOf(tail, {'?', '#'})] == p.path
  {
    NetlocFacts(s);
    TailFacts(SplitNetloc(s).1);
  }

  /** The parts of a URL, against the independent split of the same text. */
  lemma SplitAgreesWithReference(url: string)
    requires var p := SplitText(url); p.scheme != "" && p.netloc != ""
    ensures var r := Reference(url);
            var p := SplitText(url);
            && r.scheme.Some? && Lower(r.scheme.value) == p.scheme
            && r.authority == Some(p.netloc) && r.path == p.path
  {
    BodyAgreesWithReference(AfterScheme(url));
    SchemeIsRfcScheme(url);
  }

  lemma SchemeIsRfcScheme(url: string)
    requires SchemeLength(url) > 0
    ensures FirstOf(url, {':', '/', '?', '#'}) == SchemeLength(url)
  {
    var n := SchemeLength(url);
    assert url == url[..n] + url[n..];
    FirstOfAppend(url[..n], url[n..], {':', '/', '?', '#'});
  }

  lemma {:induction false} CutTwice(tail: string)
    ensures FirstOf(tail[..FirstOf(tail, {'#'})], {'?'}) == FirstOf(tail, {'?', '#'})
  {
    if tail != "" && tail[0] !in {'?', '#'} {
      CutTwice(tail[1..]);
      var n := FirstOf(tail[1..], {'#'});
      assert tail[..n + 1][1..] == tail[1..][..n];
    }
  }

  lemma CutOfTail(path: string, query: string)
    requires Free(path, {'?', '#'}) && Free(query, {'#'})
    ensures var tail := path + (if query != "" then "?" + query else "");
            Cut(tail, '#') == (tail, "") && Cut(tail, '?') == (path, query)
  {
    var more := if query != "" then "?" + query else "";
    var tail := path + more;
    FirstOfAppend(tail, "", {'#'});
    assert tail + "" == tail;
    FirstOfAppend(path, more, {'?'});
    if query != "" {
      assert FirstOf(more, {'?'}) == 0;
      assert more[1..] == query;
      assert tail[|path| + 1..] == query;
    }
  }

  lemma SchemeOfAssembled(scheme: string, rest: string)
    requires scheme == "rtmp" || scheme == "rtmps"
    ensures var url := scheme + (":" + rest);
            && SchemeLength(url) == |scheme| && url[..|scheme|] == scheme && url[|scheme| + 1..] == rest
            && StripLeft(url, ' ') == url && Lower(scheme) == scheme
  {
    var url := scheme + (":" + rest);
    FirstOfAppend(scheme, ":" + rest, {':'});
    assert forall j | 0 <= j < |scheme| :: url[j] == scheme[j];
    assert Lower(scheme) == scheme;
  }

  /** The normalised URL splits into the normalised parts. */
  lemma SplitOfJoined(p: Parts, netlocOk: string -> bool)
    requires p.scheme == "rtmp" || p.scheme == "rtmps"
    requires p.netloc != "" && p.fragment == "" && Clean(p, netlocOk)
    ensures SplitUrl(JoinUrl(p), netlocOk) == Ok(p)
  {
    var tail := p.path + (if p.query != "" then "?" + p.query else "");
    JoinAssociates(p);
    CutOfTail(p.path, p.query);
    SplitOfAssembled(p.scheme, p.netloc, tail, netlocOk);
  }

  lemma SplitOfAssembled(scheme: string, netloc: string, tail: string, netlocOk: string -> bool)
    requires scheme == "rtmp" || scheme == "rtmps"
    requires Free(netloc, {'/', '?', '#'}) && (tail == "" || tail[0] in {'/', '?', '#'})
    requires netlocOk(netloc) && (('[' in netloc) == (']' in netloc))
    ensures var (beforeFragment, fragment) := Cut(tail, '#');
            var (path, query) := Cut(beforeFragment, '?');
            SplitUrl(scheme + (":" + ("//" + (netloc + tail))), netlocOk) ==
            Ok(Parts(scheme, netloc, path, query, fragment))
  {
    SchemeOfAssembled(scheme, "//" + (netloc + tail));
    AuthorityOfAssembled(netloc, tail);
  }

  lemma JoinAssociates(p: Parts)
    requires p.scheme != "" && p.netloc != "" && p.fragment == ""
    requires p.path == "" || p.path[0] == '/'
    ensures var tail := p.path + if p.query != "" then "?" + p.query else "";
            JoinUrl(p) == p.scheme + (":" + ("//" + (p.netloc + tail)))
  {
  }

  /** The parts that `ValidateIngestUrl` keeps of an accepted URL. */
  function KeptParts(value: string, netlocOk: string -> bool): Parts
    requires SplitUrl(value, netlocOk).Ok?
  {
    var p := SplitUrl(value, netlocOk).value;
    p.(path := StripRight(p.path, '/'))
  }

  lemma KeptPartsFacts(value: string, netlocOk: string -> bool)
    requires ValidateIngestUrl(value, netlocOk).Ok?
    ensures SplitUrl(value, netlocOk).Ok?
    ensures var p := KeptParts(value, netlocOk);
            AllowedParts(p) && p.netloc != "" && ValidateIngestUrl(value, netlocOk) == Ok(JoinUrl(p))
  {
    HostNeedsNetloc(SplitUrl(value, netlocOk).value.netloc);
  }

  lemma KeptPartsAreClean(value: string, netlocOk: string -> bool)
    requires SplitUrl(value, netlocOk).Ok? && KeptParts(value, netlocOk).netloc != ""
    ensures Clean(KeptParts(value, netlocOk), netlocOk)
  {
    var whole := SplitUrl(value, netlocOk).value;
    SplitIsClean(value, netlocOk, whole);
    StripRightKeepsClean(whole, netlocOk);
  }

  lemma StripRightKeepsClean(p: Parts, netlocOk: string -> bool)
    requires Clean(p, netlocOk)
    ensures Clean(p.(path := StripRight(p.path, '/')), netlocOk)
  {
  }

  /** Validating a second time, as the join does, changes nothing: a destination that was accepted once
      is accepted again when its worker starts. */
  lemma ValidationIsIdempotent(value: string, netlocOk: string -> bool)
    requires ValidateIngestUrl(value, netlocOk).Ok?
    ensures var base := ValidateIngestUrl(value, netlocOk).value; ValidateIngestUrl(base, netlocOk) == Ok(base)
  {
    KeptPartsFacts(value, netlocOk);
    var p := KeptParts(value, netlocOk);
    KeptPartsAreClean(value, netlocOk);
    KeptPartsAreShort(value, netlocOk);
    SplitOfJoined(p, netlocOk);
    StripRightTwice(SplitUrl(value, netlocOk).value.path, '/');
    assert p.(path := StripRight(p.path, '/')) == p;
  }

  lemma KeptPartsAreShort(value: string, netlocOk: string -> bool)
    requires ValidateIngestUrl(value, netlocOk).Ok?
    ensures var base := ValidateIngestUrl(value, netlocOk).value;
            base != "" && |base| <= MAX_LENGTH && !HasControl(base)
  {
    KeptPartsFacts(value, netlocOk);
    KeptPartsAreClean(value, netlocOk);
    TextIsShortStripped(value);
    JoinedIsShort(KeptParts(value, netlocOk));
  }

  lemma StrippedIsClear(value: string)
    requires !HasControl(value)
    ensures !HasControl(StripLeft(value, ' ')) && |StripLeft(value, ' ')| <= |value|
  {
    hide StripLeft;
    var url := StripLeft(value, ' ');
    assert forall i | 0 <= i < |url| :: url[i] == value[|value| - |url| + i];
  }

  lemma TextIsShortStripped(value: string)
    requires var p := SplitText(StripLeft(value, ' ')); p.scheme != "" && p.netloc != ""
    requires !HasControl(value)
    ensures var p := SplitText(StripLeft(value, ' '));
            var kept := p.(path := StripRight(p.path, '/'));
            |kept.scheme| + 1 + Size(kept) <= |value| && PartsAreClear(kept)
  {
    hide SplitText, StripLeft, StripRight, HasControl, Size, PartsAreClear;
    var url := StripLeft(value, ' ');
    StrippedIsClear(value);
    TextIsShort(url);
    StripRightKeepsShort(SplitText(url));
  }

  lemma StripRightKeepsShort(p: Parts)
    requires PartsAreClear(p)
    ensures var kept := p.(path := StripRight(p.path, '/')); Size(kept) <= Size(p) && PartsAreClear(kept)
  {
    var path := StripRight(p.path, '/');
    assert forall i | 0 <= i < |path| :: path[i] == p.path[i];
  }

  lemma JoinedIsShort(p: Parts)
    requires p.scheme == "rtmp" || p.scheme == "rtmps"
    requires p.netloc != "" && p.fragment == "" && (p.path == "" || p.path[0] == '/')
    requires PartsAreClear(p)
    ensures |JoinUrl(p)| == |p.scheme| + 1 + Size(p)
    ensures JoinUrl(p) != "" && !HasControl(JoinUrl(p))
  {
    var front := p.scheme + "://";
    assert !HasControl(front);
    var query := if p.query != "" then "?" + p.query else "";
    assert !HasControl(query);
    assert JoinUrl(p) == front + p.netloc + p.path + query;
    NoControlAppend(front, p.netloc);
    NoControlAppend(front + p.netloc, p.path);
    NoControlAppend(front + p.netloc + p.path, query);
  }

  lemma NoControlAppend(a: string, b: string)
    requires !HasControl(a) && !HasControl(b)
    ensures !HasControl(a + b)
  {
  }

  lemma StripRightTwice(s: string, c: char)
    ensures StripRight(StripRight(s, c), c) == StripRight(s, c)
  {
  }

  lemma MarkBeforeQuery(p: Parts)
    requires p.scheme != "" && p.netloc != "" && p.fragment == "" && (p.path == "" || p.path[0] == '/')
    requires p.query != ""
    ensures '?' in JoinUrl(p)
  {
    var front := p.scheme + "://" + p.netloc + p.path;
    assert JoinUrl(p) == front + ("?" + p.query);
    assert JoinUrl(p)[|front|] == '?';
  }

  lemma QueryIsEmpty(p: Parts)
    requires p.scheme != "" && p.netloc != "" && p.fragment == "" && (p.path == "" || p.path[0] == '/')
    requires '?' !in JoinUrl(p)
    ensures p.query == "" && JoinUrl(p) == p.scheme + "://" + p.netloc + p.path
  {
    if p.query != "" {
      MarkBeforeQuery(p);
    }
  }

  /** Same scheme and authority, and a path strictly below. */
  predicate Below(r: UriReference, base: UriReference) {
    r.scheme == base.scheme && r.authority.Some? && r.authority == base.authority && base.path + "/" <= r.path
  }

  predicate NormalisedFrom(base: UriReference, given: UriReference) {
    && (base.scheme == Some("rtmp") || base.scheme == Some("rtmps"))
    && given.scheme.Some? && base.scheme == Some(Lower(given.scheme.value))
    && base.authority.Some? && base.authority == given.authority
    && base.path == StripRight(given.path, '/')
  }

  lemma BaseKeepsHost(ingestUrl: string, netlocOk: string -> bool)
    requires ValidateIngestUrl(ingestUrl, netlocOk).Ok? && '?' !in ValidateIngestUrl(ingestUrl, netlocOk).value
    ensures NormalisedFrom(
              Reference(ValidateIngestUrl(ingestUrl, netlocOk).value), Reference(StripLeft(ingestUrl, ' ')))
  {
    KeptPartsFacts(ingestUrl, netlocOk);
    KeptPartsAreClean(ingestUrl, netlocOk);
    SplitAgreesWithReference(StripLeft(ingestUrl, ' '));
    var p := KeptParts(ingestUrl, netlocOk);
    QueryIsEmpty(p);
    ReferencesOfJoin(p.scheme, p.netloc, p.path, "");
  }

  lemma JoinStaysBelow(ingestUrl: string, key: string, netlocOk: string -> bool)
    requires ValidateIngestUrl(ingestUrl, netlocOk).Ok? && '?' !in ValidateIngestUrl(ingestUrl, netlocOk).value
    ensures var base := ValidateIngestUrl(ingestUrl, netlocOk).value;
            Below(Reference(base + "/" + key), Reference(base))
  {
    KeptPartsFacts(ingestUrl, netlocOk);
    KeptPartsAreClean(ingestUrl, netlocOk);
    var p := KeptParts(ingestUrl, netlocOk);
    QueryIsEmpty(p);
    ReferencesOfJoin(p.scheme, p.netloc, p.path, key);
  }

  /** Whatever the stream key is, the joined URL goes to the scheme and the authority of the ingest URL that
      was accepted, and its path lies below the path of that URL. */
  lemma HostIsPreserved(ingestUrl: string, streamKey: string, netlocOk: string -> bool)
    requires BuildDestinationUrl(ingestUrl, streamKey, netlocOk).Ok?
    ensures var base := ValidateIngestUrl(ingestUrl, netlocOk).value;
            var joined := BuildDestinationUrl(ingestUrl, streamKey, netlocOk).value;
            && NormalisedFrom(Reference(base), Reference(StripLeft(ingestUrl, ' ')))
            && Below(Reference(joined), Reference(base))
  {
    BaseKeepsHost(ingestUrl, netlocOk);
    JoinStaysBelow(ingestUrl, StripLeft(streamKey, '/'), netlocOk);
  }

  /** What is accepted as a stream key: any text of 1 to 2048 characters without control characters, unchanged. */
  lemma StreamKeyIsExact(streamKey: string, key: string)
    ensures ValidateStreamKey(streamKey) == Ok(key) <==>
            key == streamKey && 1 <= |key| <= 2048 && forall i | 0 <= i < |key| :: ' ' <= key[i] != '\U{7F}'
    ensures ValidateStreamKey(streamKey) != Err(Fault)
  {
    if !HasControl(streamKey) {
      assert forall i | 0 <= i < |streamKey| :: !IsControl(streamKey[i]);
    }
  }

  /** The first n characters of the key are all its leading slashes. */
  predicate IsTrim(key: string, n: nat) {
    && n <= |key| && (forall i | 0 <= i < n :: key[i] == '/')
    && (n == |key| || key[n] != '/')
  }

  lemma TrimIsUnique(key: string, n: nat)
    ensures IsTrim(key, n) <==> n == |key| - |StripLeft(key, '/')|
    ensures IsTrim(key, n) ==> key[n..] == StripLeft(key, '/')
  {
    hide StripLeft;
    var m: nat := |key| - |StripLeft(key, '/')|;
    assert m < |key| ==> key[m] == StripLeft(key, '/')[0] != '/';
  }

  /** The joined URL is the base, one slash, and the stream key without the slashes in front of it. */
  lemma JoinIsExact(ingestUrl: string, streamKey: string, netlocOk: string -> bool, joined: string)
    ensures BuildDestinationUrl(ingestUrl, streamKey, netlocOk) == Ok(joined) <==>
            && ValidateIngestUrl(ingestUrl, netlocOk).Ok? && ValidateStreamKey(streamKey).Ok?
            && '?' !in ValidateIngestUrl(ingestUrl, netlocOk).value
            && exists n: nat | IsTrim(streamKey, n) ::
                 joined == ValidateIngestUrl(ingestUrl, netlocOk).value + "/" + streamKey[n..]
  {
    hide ValidateIngestUrl, HasControl, StripLeft, IsTrim;
    var n: nat := |streamKey| - |StripLeft(streamKey, '/')|;
    TrimIsUnique(streamKey, n);
    forall m: nat | IsTrim(streamKey, m) ensures m == n {
      TrimIsUnique(streamKey, m);
    }
  }

  /** So the joined URL tells stream keys apart that do not start with a slash. */
  lemma JoinIsInjective(ingestUrl: string, a: string, b: string, netlocOk: string -> bool)
    requires BuildDestinationUrl(ingestUrl, a, netlocOk).Ok? && a[0] != '/'
    requires BuildDestinationUrl(ingestUrl, b, netlocOk) == BuildDestinationUrl(ingestUrl, a, netlocOk) && b[0] != '/'
    ensures a == b
  {
    hide ValidateIngestUrl;
    var base := ValidateIngestUrl(ingestUrl, netlocOk).value;
    assert (base + "/" + a)[|base| + 1..] == a;
    assert (base + "/" + b)[|base| + 1..] == b;
  }

  // ---------- what an accepted ingest URL looks like ----------

  /** No user name and no password in front of the last `@`, and a host behind it, with a colon and the decimal digits
      of a number up to 65535 or of none. A host in brackets is looked at by the library. */
  predicate IsSafeAuthority(authority: string) {
    var at := AfterLast(authority, '@');
    var host := authority[at..];
    var n := FirstOf(host, {':'});
    && (at > 0 ==> authority[..at - 1] == "" || authority[..at - 1] == ":")
    && host != ""
    && ('[' !in host ==>
          && 0 < n
          && (n < |host| ==>
                && (forall i | n < i < |host| :: '0' <= host[i] <= '9')
                && DecimalValue(host[n + 1..]) <= 65535))
  }

  lemma OnlyColon(s: string)
    requires Cut(s, ':').0 == "" && Cut(s, ':').1 == ""
    ensures s == "" || s == ":"
  {
    var n := FirstOf(s, {':'});
    assert s[..n] == "";
    if s != "" {
      assert s[1..] == "";
    }
  }

  lemma AllowedAuthorityIsSafe(netloc: string)
    requires Host(netloc) != "" && !HasCredentials(netloc) && ValidPort(netloc)
    ensures IsSafeAuthority(netloc)
  {
    hide FirstOf, AfterLast, DecimalValue;
    var at := AfterLast(netloc, '@');
    var host := netloc[at..];
    if at > 0 {
      OnlyColon(netloc[..at - 1]);
    }
    var n := FirstOf(host, {':'});
    if '[' !in host && n < |host| {
      var port := host[n + 1..];
      assert PortText(netloc) == port;
      assert forall i | n < i < |host| :: host[i] == port[i - n - 1];
    }
  }

  /** An accepted URL has one of the two schemes, an authority without credentials and with a host and a fit port, no
      fragment, at most 2048 characters, and no control characters. */
  lemma AcceptedUrlIsSafe(value: string, netlocOk: string -> bool)
    requires ValidateIngestUrl(value, netlocOk).Ok?
    ensures 1 <= |value| <= 2048 && !HasControl(value)
    ensures var r := Reference(StripLeft(value, ' '));
            && r.scheme.Some? && Lower(r.scheme.value) in {"rtmp", "rtmps"}
            && r.authority.Some? && netlocOk(r.authority.value) && IsSafeAuthority(r.authority.value)
    ensures SplitText(StripLeft(value, ' ')).fragment == ""
  {
    hide Reference, SplitText, StripLeft, IsSafeAuthority, HasControl, Host, HasCredentials, ValidPort, JoinUrl, Lower;
    var url := StripLeft(value, ' ');
    HostNeedsNetloc(SplitText(url).netloc);
    SplitAgreesWithReference(url);
    AllowedAuthorityIsSafe(SplitText(url).netloc);
  }

  lemma SuffixHasNoMore(s: string, at: nat, c: char)
    requires at <= |s| && c !in s
    ensures c !in s[at..]
  {
  }

  lemma PlainHostParts(netloc: string)
    requires '[' !in netloc
    ensures var host := netloc[AfterLast(netloc, '@')..];
            var n := FirstOf(host, {':'});
            Host(netloc) == host[..n] && PortText(netloc) == if n < |host| then host[n + 1..] else ""
  {
    hide FirstOf, AfterLast;
    SuffixHasNoMore(netloc, AfterLast(netloc, '@'), '[');
  }

  lemma FitPort(host: string, n: nat, port: string)
    requires n <= |host| && port == if n < |host| then host[n + 1..] else ""
    ensures (forall i | 0 <= i < |port| :: '0' <= port[i] <= '9') <==>
            (n < |host| ==> forall i | n < i < |host| :: '0' <= host[i] <= '9')
  {
    assert forall i | 0 <= i < |port| :: port[i] == host[n + 1 + i];
    assert n < |host| ==> forall i | n < i < |host| :: host[i] == port[i - n - 1];
  }

  /** On a host without brackets these checks are exactly the ones that are made. */
  lemma SafeAuthorityIsAllowed(netloc: string)
    requires '[' !in netloc
    ensures IsSafeAuthority(netloc) <==> Host(netloc) != "" && !HasCredentials(netloc) && ValidPort(netloc)
  {
    hide FirstOf, AfterLast, DecimalValue, Host, PortText;
    var at := AfterLast(netloc, '@');
    var host := netloc[at..];
    var n := FirstOf(host, {':'});
    SuffixHasNoMore(netloc, at, '[');
    PlainHostParts(netloc);
    FitPort(host, n, PortText(netloc));
    NoDigits();
    if at > 0 {
      NoCredentials(netloc[..at - 1]);
    }
  }

  lemma NoCredentials(s: string)
    ensures s == "" || s == ":" <==> Cut(s, ':').0 == "" && Cut(s, ':').1 == ""
  {
    if Cut(s, ':').0 == "" && Cut(s, ':').1 == "" {
      OnlyColon(s);
    }
  }

  lemma NoDigits()
    ensures DecimalValue("") == 0
  {
  }

  /** Which ingest URLs without brackets are accepted, and what is made of them. */
  lemma IngestUrlIsExact(value: string, netlocOk: string -> bool, accepted: string)
    requires '[' !in value
    ensures ValidateIngestUrl(value, netlocOk) == Ok(accepted) <==>
            var p := SplitText(StripLeft(value, ' '));
            && 1 <= |value| <= 2048 && !HasControl(value) && ']' !in p.netloc && netlocOk(p.netloc)
            && (p.scheme == "rtmp" || p.scheme == "rtmps") && p.fragment == "" && IsSafeAuthority(p.netloc)
            && p.netloc != "" && accepted == JoinUrl(p.(path := StripRight(p.path, '/')))
  {
    hide SplitUrl, Host, HasCredentials, ValidPort, IsSafeAuthority, JoinUrl, SplitText, StripLeft, StripRight;
    hide HasControl;
    var p := SplitText(StripLeft(value, ' '));
    SplitWithoutBrackets(value, netlocOk);
    NetlocHasNoBracket(value);
    SafeAuthorityIsAllowed(p.netloc);
    if Host(p.netloc) != "" {
      HostNeedsNetloc(p.netloc);
    }
  }

  lemma SplitWithoutBrackets(value: string, netlocOk: string -> bool)
    requires '[' !in value
    ensures var p := SplitText(StripLeft(value, ' '));
            SplitUrl(value, netlocOk) == if ']' !in p.netloc && netlocOk(p.netloc) then Ok(p) else Err(Fault)
  {
    hide SplitText, StripLeft;
    NetlocHasNoBracket(value);
  }

  lemma NetlocHasNoBracket(value: string)
    requires '[' !in value
    ensures '[' !in SplitText(StripLeft(value, ' ')).netloc
  {
    hide SchemeLength, FirstOf, StripLeft;
    var url := StripLeft(value, ' ');
    assert forall c | c in url :: c in value;
    var body := AfterScheme(url);
    assert forall c | c in body :: c in url;
    assert forall c | c in SplitNetloc(body).0 :: c in body;
  }

  lemma ControlIsExact(s: string)
    ensures HasControl(s) <==> exists i | 0 <= i < |s| :: s[i] as int < 0x20 || s[i] as int == 0x7F
  {
  }

  lemma ReferencesOfJoin(scheme: string, netloc: string, path: string, key: string)
    requires scheme == "rtmp" || scheme == "rtmps"
    requires Free(netloc, {'/', '?', '#'}) && Free(path, {'?', '#'}) && (path == "" || path[0] == '/')
    ensures var base := scheme + "://" + netloc + path;
            && Reference(base) == UriReference(Some(scheme), Some(netloc), path)
            && var joined := Reference(base + "/" + key);
               joined.scheme == Some(scheme) && joined.authority == Some(netloc) && path + "/" <= joined.path
  {
    var rest := path + "/" + key;
    assert scheme + "://" + netloc + path == scheme + (":" + ("//" + (netloc + path)));
    assert scheme + "://" + netloc + path + "/" + key == scheme + (":" + ("//" + (netloc + rest)));
    ReferenceOfAssembled(scheme, netloc, path);
    ReferenceOfAssembled(scheme, netloc, rest);
    PathPrefix(path, key);
  }

  lemma PathPrefix(path: string, key: string)
    requires Free(path, {'?', '#'})
    ensures path[..FirstOf(path, {'?', '#'})] == path
    ensures var rest := path + "/" + key; path + "/" <= rest[..FirstOf(rest, {'?', '#'})]
  {
    FirstOfAppend(path, "", {'?', '#'});
    assert path + "" == path;
    FirstOfAppend(path + "/", key, {'?', '#'});
  }
}
