/** The multi-host connection URI that a connection is opened with, and what reading it back gives. The reader follows
    section 34.1.1.2 of the PostgreSQL 16 documentation: credentials up to the first '@' that no '/' precedes, a
    comma-separated list of hosts with ports, the database name after '/', parameters after '?', and percent-encoding
    in each part. */
module ConnectionUri {
  import opened Decimal

  datatype Cluster = Cluster(dbName: string, user: string, password: string, host: string, port: nat)

  const SCHEME_NAME := "postgresql:"
  const SCHEME := SCHEME_NAME + "//"
  const NAME_KEY := "application_name="
  const NAME_SUFFIX := "::nvql"
  const TIMEOUT := "connect_timeout=5"

  /** The number of values of the 16-bit loop counter. */
  const WRAP := 65536

  /** Incrementing the counter. */
  function Next(index: nat): nat {
    if index + 1 == WRAP then 0 else index + 1
  }

  // ----- Building -----------------------------------------------------------------------------

  function HostPort(c: Cluster): string {
    c.host + ":" + Print(c.port)
  }

  function Authority(c: Cluster): string {
    c.user + (":" + (c.password + ("@" + HostPort(c))))
  }

  /** What one round of the loop appends; only a round that finds the counter at zero writes the prefix. */
  function Piece(c: Cluster, index: nat): string {
    if index == 0 then SCHEME + (c.user + ":" + (c.password + "@" + HostPort(c))) else "," + HostPort(c)
  }

  function Pieces(cs: seq<Cluster>, index: nat): string {
    if cs == [] then "" else Piece(cs[0], index) + Pieces(cs[1..], Next(index))
  }

  /** The database name of the last round that wrote the prefix. */
  function DbName(cs: seq<Cluster>, index: nat, dbName: string): string {
    if cs == [] then dbName
    else DbName(cs[1..], Next(index), if index == 0 then cs[0].dbName else dbName)
  }

  function Params(name: string): string {
    NAME_KEY + (name + NAME_SUFFIX) + "&" + TIMEOUT
  }

  function Build(cs: seq<Cluster>, name: string): string {
    if cs == [] then "" else Pieces(cs, 0) + ("/" + (DbName(cs, 0, "") + ("?" + Params(name))))
  }

  method BuildConnectionString(clusters: seq<Cluster>, name: string) returns (uri: string)
    ensures uri == Build(clusters, name)
  {
    if clusters == [] {
      return "";
    }
    var host, dbName := "", "";
    var index: nat := 0;
    AppendNothing(Pieces(clusters, 0));
    assert clusters[0..] == clusters;
    for i := 0 to |clusters|
      invariant host + Pieces(clusters[i..], index) == Pieces(clusters, 0)
      invariant DbName(clusters[i..], index, dbName) == DbName(clusters, 0, "")
    {
      Round(clusters, i, index, host, dbName);
      host, dbName := AppendCluster(clusters[i], index, host, dbName);
      index := Next(index);
    }
    AppendNothing(host);
    uri := host + ("/" + (dbName + ("?" + Params(name))));
  }

  /** The body of the loop, apart from the counter. */
  method AppendCluster(cluster: Cluster, index: nat, host: string, dbName: string)
    returns (host': string, dbName': string)
    ensures host' == host + Piece(cluster, index)
    ensures dbName' == if index == 0 then cluster.dbName else dbName
  {
    host', dbName' := host, dbName;
    if index == 0 {
      host' := host' + (SCHEME + (cluster.user + (":" + (cluster.password + ("@" + HostPort(cluster))))));
      dbName' := cluster.dbName;
      return;
    }
    host' := host' + ("," + HostPort(cluster));
  }

  lemma AppendNothing(a: string)
    ensures "" + a == a && a + "" == a
  {
  }

  lemma Round(cs: seq<Cluster>, i: nat, index: nat, host: string, dbName: string)
    requires i < |cs|
    ensures host + Pieces(cs[i..], index) == (host + Piece(cs[i], index)) + Pieces(cs[i + 1..], Next(index))
    ensures DbName(cs[i..], index, dbName) ==
            DbName(cs[i + 1..], Next(index), if index == 0 then cs[i].dbName else dbName)
  {
    assert cs[i..][1..] == cs[i + 1..];
    Append(host, Piece(cs[i], index), Pieces(cs[i + 1..], Next(index)));
  }

  lemma Append(a: string, b: string, c: string)
    ensures a + (b + c) == (a + b) + c
  {
  }

  // ----- Reading ------------------------------------------------------------------------------

  predicate Free(s: string, stops: set<char>) {
    forall i :: 0 <= i < |s| ==> s[i] !in stops
  }

  /** The text before the first stop character, that character, and the text after it. */
  function Cut(s: string, stops: set<char>): (r: Option<(string, char, string)>)
    ensures r.None? <==> Free(s, stops)
    ensures r.Some? ==> Free(r.value.0, stops) && r.value.1 in stops && |r.value.0| + |r.value.2| < |s|
  {
    if s == "" then None
    else if s[0] in stops then Some(("", s[0], s[1..]))
    else
      match Cut(s[1..], stops)
      case None => None
      case Some((a, c, b)) => Some(([s[0]] + a, c, b))
  }

  predicate IsHex(c: char) {
    IsDigit(c) || 'a' <= c <= 'f' || 'A' <= c <= 'F'
  }

  function HexValue(c: char): (d: nat)
    requires IsHex(c)
    ensures d < 16
  {
    if IsDigit(c) then DigitValue(c)
    else if 'a' <= c <= 'f' then c as int - 'a' as int + 10
    else c as int - 'A' as int + 10
  }

  /** The first character of a percent-encoded text and the number of characters that stand for it: two hexadecimal
      digits after each '%', not both zero. */
  function Lead(s: string): (r: Option<(char, nat)>)
    requires s != ""
    ensures r.Some? ==> 1 <= r.value.1 <= |s|
    ensures r.Some? ==> (r.value.1 == 1 <==> s[0] != '%') && (r.value.1 == 1 ==> r.value.0 == s[0])
  {
    if s[0] != '%' then Some((s[0], 1))
    else if |s| < 3 || !IsHex(s[1]) || !IsHex(s[2]) || HexValue(s[1]) + HexValue(s[2]) == 0 then None
    else Some(((HexValue(s[1]) * 16 + HexValue(s[2])) as char, 3))
  }

  /** Percent-decoding only ever shortens a text, and of all texts of its own length gives at most the text itself. */
  function Decode(s: string): (r: Option<string>)
    ensures r.Some? ==> |r.value| <= |s|
    ensures r.Some? && |r.value| == |s| ==> r.value == s && Free(s, {'%'})
  {
    if s == "" then Some("")
    else
      match Lead(s)
      case None => None
      case Some((c, n)) => Prepend(c, Decode(s[n..]))
  }

  function Prepend(c: char, s: Option<string>): Option<string> {
    match s
    case None => None
    case Some(t) => Some([c] + t)
  }

  datatype Endpoint = Endpoint(host: string, port: nat)

  datatype Target = Target(user: string, password: string, endpoints: seq<Endpoint>, dbName: string, name: string)

  /** A bracketed host, an IPv6 address, is outside this reader. The list of hosts is split once more after decoding, so
      a host that decodes to one with a comma is not one host. */
  function ReadEndpoint(s: string): Option<Endpoint> {
    match Cut(s, {':'})
    case None => None
    case Some((host, _, port)) =>
      match (Decode(host), Decode(port))
      case (Some(h), Some(p)) =>
        if p == "" || !AllDigits(p) || (host != "" && host[0] == '[') || !Free(h, {','}) then None
        else Some(Endpoint(h, Value(p)))
      case _ => None
  }

  function ReadEndpoints(s: string): Option<seq<Endpoint>>
    decreases |s|
  {
    match Cut(s, {','})
    case None => (match ReadEndpoint(s) case None => None case Some(e) => Some([e]))
    case Some((first, _, rest)) =>
      match (ReadEndpoint(first), ReadEndpoints(rest))
      case (Some(e), Some(es)) => Some([e] + es)
      case _ => None
  }

  /** The value of the first parameter: a text with the suffix the builder appends. */
  function ReadValue(raw: string): Option<string> {
    if !Free(raw, {'='}) then None
    else
      match Decode(raw)
      case None => None
      case Some(value) => StripSuffix(value)
  }

  function StripSuffix(value: string): (r: Option<string>)
    ensures r.Some? ==> value == r.value + NAME_SUFFIX
  {
    var n := |value| - |NAME_SUFFIX|;
    if n < 0 || value[n..] != NAME_SUFFIX then None else Some(value[..n])
  }

  function ReadName(s: string): Option<string> {
    match Cut(s, {'&'})
    case None => None
    case Some((first, _, rest)) =>
      if rest != TIMEOUT || !(NAME_KEY <= first) then None else ReadValue(first[|NAME_KEY|..])
  }

  function ReadTail(tail: string): Option<(string, string)> {
    match Cut(tail, {'?'})
    case None => None
    case Some((dbName, _, params)) =>
      match (Decode(dbName), ReadName(params))
      case (Some(d), Some(name)) => Some((d, name))
      case _ => None
  }

  function Join(user: Option<string>, password: Option<string>, endpoints: Option<seq<Endpoint>>,
                tail: Option<(string, string)>): Option<Target> {
    if user == None || password == None || endpoints == None || tail == None then None
    else Some(Target(user.value, password.value, endpoints.value, tail.value.0, tail.value.1))
  }

  /** What follows the credentials. */
  function ReadAfter(user: Option<string>, password: Option<string>, rest: string): Option<Target> {
    match Cut(rest, {'/', '?'})
    case Some((hosts, '/', tail)) => Join(user, password, ReadEndpoints(hosts), ReadTail(tail))
    case _ => None
  }

  function ReadRest(credentials: string, rest: string): Option<Target> {
    match Cut(credentials, {':'})
    case None => None
    case Some((user, _, password)) => ReadAfter(Decode(user), Decode(password), rest)
  }

  function ReadBody(body: string): Option<Target> {
    match Cut(body, {'@', '/'})
    case Some((credentials, '@', rest)) => ReadRest(credentials, rest)
    case _ => None
  }

  /** What follows a prefix. */
  function Strip(prefix: string, s: string): Option<string> {
    if prefix == "" then Some(s)
    else if s == "" || s[0] != prefix[0] then None
    else Strip(prefix[1..], s[1..])
  }

  function Read(uri: string): Option<Target> {
    match Strip(SCHEME, uri)
    case None => None
    case Some(body) => ReadBody(body)
  }

  // ----- Round trip ---------------------------------------------------------------------------

  ghost predicate PlainHost(host: string) {
    Free(host, {':', '/', '?', ','}) && (host != "" ==> host[0] != '[')
  }

  ghost predicate PlainCredentials(t: Target) {
    Free(t.user, {':', '@', '/'}) && Free(t.password, {'@', '/'})
  }

  /** No field contains a character that ends it. */
  ghost predicate Plain(t: Target) {
    && PlainCredentials(t) && Free(t.dbName, {'?'}) && Free(t.name, {'&', '='})
    && forall i :: 0 <= i < |t.endpoints| ==> PlainHost(t.endpoints[i].host)
  }

  /** No field contains the character that begins an encoded one. */
  ghost predicate Unencoded(t: Target) {
    && Free(t.user, {'%'}) && Free(t.password, {'%'}) && Free(t.dbName, {'%'}) && Free(t.name, {'%'})
    && forall i :: 0 <= i < |t.endpoints| ==> Free(t.endpoints[i].host, {'%'})
  }

  ghost predicate Clean(t: Target) {
    Plain(t) && Unencoded(t)
  }

  function DecodedEndpoints(es: seq<Endpoint>): Option<seq<Endpoint>> {
    if es == [] then Some([])
    else
      match (Decode(es[0].host), DecodedEndpoints(es[1..]))
      case (Some(host), Some(rest)) => if Free(host, {','}) then Some([Endpoint(host, es[0].port)] + rest) else None
      case _ => None
  }

  /** A target with each field decoded. */
  function Decoded(t: Target): Option<Target> {
    match (Decode(t.dbName), Decode(t.name))
    case (Some(d), Some(n)) => Join(Decode(t.user), Decode(t.password), DecodedEndpoints(t.endpoints), Some((d, n)))
    case _ => None
  }

  function Endpoints(cs: seq<Cluster>): (r: seq<Endpoint>)
    ensures |r| == |cs|
  {
    if cs == [] then [] else [Endpoint(cs[0].host, cs[0].port)] + Endpoints(cs[1..])
  }

  /** What the URI of a cluster list is meant to say: the first cluster's credentials and database, every host. */
  function Meant(cs: seq<Cluster>, name: string): Target
    requires cs != []
  {
    Target(cs[0].user, cs[0].password, Endpoints(cs), cs[0].dbName, name)
  }

  lemma {:induction false} CutAt(a: string, c: char, b: string, stops: set<char>)
    requires Free(a, stops) && c in stops
    ensures Cut(a + ([c] + b), stops) == Some((a, c, b))
  {
    var s := a + ([c] + b);
    if a == "" {
      assert s == [c] + b;
    } else {
      CutAt(a[1..], c, b, stops);
      assert s[1..] == a[1..] + ([c] + b);
      assert [a[0]] + a[1..] == a;
    }
  }

  /** Hosts and ports separated by commas, as the builder writes them. */
  function HostList(cs: seq<Cluster>): string
    requires cs != []
  {
    if |cs| == 1 then HostPort(cs[0]) else HostPort(cs[0]) + ("," + HostList(cs[1..]))
  }

  lemma HostPortFree(c: Cluster)
    requires PlainHost(c.host)
    ensures Free(HostPort(c), {'/', '?', ','})
  {
    ValueOfPrint(c.port);
  }

  lemma {:induction false} HostListFree(cs: seq<Cluster>)
    requires cs != [] && forall i :: 0 <= i < |cs| ==> PlainHost(cs[i].host)
    ensures Free(HostList(cs), {'/', '?'})
  {
    HostPortFree(cs[0]);
    if |cs| > 1 { HostListFree(cs[1..]); }
  }

  // ----- The builder's text, cut by cut -------------------------------------------------------

  lemma PiecesUnfold(cs: seq<Cluster>, index: nat)
    requires cs != []
    ensures Pieces(cs, index) == Piece(cs[0], index) + Pieces(cs[1..], Next(index))
  {
  }

  lemma ListStep(p: string, hp: string, q: string, h: string)
    requires p == ("," + hp) + q && q == "," + h
    ensures p == "," + (hp + ("," + h))
  {
  }

  lemma WrapStep(p: string, hp: string, q: string, h: string, last: string)
    requires p == ("," + hp) + q && q == ("," + h) + last
    ensures p == ("," + (hp + ("," + h))) + last
  {
  }

  /** Up to 65536 clusters, the prefix is written once and the rest is a plain list of hosts. */
  lemma {:induction false} PiecesAreHosts(cs: seq<Cluster>, index: nat)
    requires cs != [] && 0 < index && index + |cs| <= WRAP
    ensures Pieces(cs, index) == "," + HostList(cs)
    ensures forall d :: DbName(cs, index, d) == d
  {
    var rest := cs[1..];
    if rest == [] {
      assert Pieces(rest, Next(index)) == "";
      AppendNothing(Piece(cs[0], index));
    } else {
      PiecesAreHosts(rest, index + 1);
      ListStep(Pieces(cs, index), HostPort(cs[0]), Pieces(rest, index + 1), HostList(rest));
    }
  }

  /** Beyond that, the counter is back at zero and the prefix is written again, with nothing in front of it. */
  lemma {:induction false} PiecesWrap(a: seq<Cluster>, b: seq<Cluster>, index: nat)
    requires a != [] && 0 < index && index + |a| == WRAP
    ensures Pieces(a + b, index) == ("," + HostList(a)) + Pieces(b, 0)
    decreases |a|
  {
    var rest := a[1..];
    assert (a + b)[1..] == rest + b;
    PiecesUnfold(a + b, index);
    if rest == [] {
      assert rest + b == b;
      assert HostList(a) == HostPort(a[0]);
    } else {
      PiecesWrap(rest, b, index + 1);
      WrapStep(Pieces(a + b, index), HostPort(a[0]), Pieces(rest + b, index + 1), HostList(rest), Pieces(b, 0));
    }
  }

  lemma ReadHostPort(c: Cluster)
    requires PlainHost(c.host)
    ensures ReadEndpoint(HostPort(c)) ==
            match Decode(c.host)
            case None => None
            case Some(host) => if Free(host, {','}) then Some(Endpoint(host, c.port)) else None
  {
    CutPort(c.host, Print(c.port));
    ValueOfPrint(c.port);
    DecodeFree(Print(c.port));
  }

  lemma {:induction false} DecodeFree(s: string)
    requires Free(s, {'%'})
    ensures Decode(s) == Some(s)
  {
    if s != "" {
      DecodeFree(s[1..]);
      assert [s[0]] + s[1..] == s;
    }
  }

  lemma PrependAppend(c: char, s: Option<string>, b: string)
    ensures Prepend(c, if s.None? then None else Some(s.value + b)) ==
            if s.None? then None else Some(Prepend(c, s).value + b)
  {
    if s.Some? { Append([c], s.value, b); }
  }

  lemma DropFrom(a: string, b: string, n: nat)
    requires n <= |a|
    ensures (a + b)[n..] == a[n..] + b
  {
  }

  lemma LeadAppend(a: string, b: string)
    requires a != "" && b != "" && !IsHex(b[0])
    ensures Lead(a + b) == Lead(a)
  {
    var s := a + b;
    assert s[0] == a[0];
    if |a| >= 3 {
      assert s[1] == a[1] && s[2] == a[2];
    } else {
      assert s[|a|] == b[0];
    }
  }

  /** A text that is not part of an encoded character decodes by itself. */
  lemma {:induction false} DecodeAppend(a: string, b: string)
    requires b != "" && !IsHex(b[0]) && Free(b, {'%'})
    ensures Decode(a + b) == match Decode(a) case None => None case Some(d) => Some(d + b)
  {
    if a == "" {
      DecodeFree(b);
      assert a + b == b;
    } else {
      LeadAppend(a, b);
      match Lead(a)
      case None =>
      case Some((c, n)) =>
        DecodeAppend(a[n..], b);
        DropFrom(a, b, n);
        PrependAppend(c, Decode(a[n..]), b);
    }
  }

  lemma CutPort(host: string, port: string)
    requires PlainHost(host)
    ensures Cut(host + ":" + port, {':'}) == Some((host, ':', port))
  {
    CutAt(host, ':', port, {':'});
    Colon(host, port);
  }

  lemma Colon(host: string, port: string)
    ensures host + ":" + port == host + ([':'] + port)
  {
  }

  lemma AppendNone(e: Endpoint)
    ensures forall host :: [Endpoint(host, e.port)] + [] == [Endpoint(host, e.port)]
  {
  }

  lemma {:induction false} ReadHostList(cs: seq<Cluster>)
    requires cs != [] && forall i :: 0 <= i < |cs| ==> PlainHost(cs[i].host)
    ensures ReadEndpoints(HostList(cs)) == DecodedEndpoints(Endpoints(cs))
  {
    HostPortFree(cs[0]);
    ReadHostPort(cs[0]);
    assert Endpoints(cs)[1..] == Endpoints(cs[1..]);
    if |cs| == 1 {
      assert DecodedEndpoints(Endpoints(cs[1..])) == Some([]);
      AppendNone(Endpoints(cs)[0]);
      assert Cut(HostPort(cs[0]), {','}) == None;
    } else {
      ReadHostList(cs[1..]);
      CutAt(HostPort(cs[0]), ',', HostList(cs[1..]), {','});
    }
  }

  lemma ReadBrokenPort(c: Cluster, junk: string)
    requires PlainHost(c.host) && Free(junk, {',', '%'}) && junk != "" && !IsDigit(junk[0])
    ensures Free(HostPort(c) + junk, {','}) && ReadEndpoint(HostPort(c) + junk) == None
  {
    HostPortFree(c);
    var port := Print(c.port) + junk;
    CutPort(c.host, port);
    assert HostPort(c) + junk == c.host + ":" + port;
    ValueOfPrint(c.port);
    DecodeFree(port);
    assert port[|Print(c.port)|] == junk[0];
  }

  lemma GroupList(hp: string, h: string, junk: string)
    ensures (hp + ("," + h)) + junk == hp + ([','] + (h + junk))
  {
  }

  /** A port with the beginning of a second prefix stuck to it is not a number. */
  lemma {:induction false} ReadBrokenHostList(cs: seq<Cluster>, junk: string)
    requires cs != [] && forall i :: 0 <= i < |cs| ==> PlainHost(cs[i].host)
    requires Free(junk, {',', '%'}) && junk != "" && !IsDigit(junk[0])
    ensures ReadEndpoints(HostList(cs) + junk) == None
  {
    if |cs| == 1 {
      ReadBrokenPort(cs[0], junk);
    } else {
      HostPortFree(cs[0]);
      ReadBrokenHostList(cs[1..], junk);
      var rest := HostList(cs[1..]) + junk;
      CutAt(HostPort(cs[0]), ',', rest, {','});
      GroupList(HostPort(cs[0]), HostList(cs[1..]), junk);
    }
  }

  lemma SuffixStripped(d: string)
    ensures StripSuffix(d + NAME_SUFFIX) == Some(d)
  {
    assert (d + NAME_SUFFIX)[|d|..] == NAME_SUFFIX && (d + NAME_SUFFIX)[..|d|] == d;
  }

  lemma ReadValueOf(name: string)
    requires Free(name, {'='})
    ensures ReadValue(name + NAME_SUFFIX) == Decode(name)
  {
    assert Free(NAME_SUFFIX, {'=', '%'}) && !IsHex(NAME_SUFFIX[0]);
    DecodeAppend(name, NAME_SUFFIX);
    if Decode(name).Some? { SuffixStripped(Decode(name).value); }
  }

  /** The parameters, cut where the second one begins. */
  lemma ParamsSplit(name: string)
    ensures Params(name) == (NAME_KEY + (name + NAME_SUFFIX)) + (['&'] + TIMEOUT)
    ensures Params(name) == NAME_KEY + ((name + NAME_SUFFIX) + (['&'] + TIMEOUT))
    ensures (NAME_KEY + (name + NAME_SUFFIX))[|NAME_KEY|..] == name + NAME_SUFFIX
  {
  }

  lemma ReadParams(name: string)
    requires Free(name, {'&', '='})
    ensures ReadName(Params(name)) == Decode(name)
  {
    ParamsSplit(name);
    CutAt(NAME_KEY + (name + NAME_SUFFIX), '&', TIMEOUT, {'&'});
    ReadValueOf(name);
  }

  lemma GroupBody(user: string, password: string, rest: string)
    ensures user + (":" + (password + ("@" + rest))) == (user + (":" + password)) + (['@'] + rest)
  {
  }

  lemma CredentialsFree(user: string, password: string)
    requires Free(user, {':', '@', '/'}) && Free(password, {'@', '/'})
    ensures Free(user + (":" + password), {'@', '/'}) && Free(user, {':'})
  {
  }

  function Body(user: string, password: string, rest: string): string {
    user + (":" + (password + ("@" + rest)))
  }

  lemma ReadCredentials(user: string, password: string, rest: string)
    requires Free(user, {':', '@', '/'}) && Free(password, {'@', '/'})
    ensures ReadBody(Body(user, password, rest)) == ReadAfter(Decode(user), Decode(password), rest)
  {
    var credentials := user + (":" + password);
    CredentialsFree(user, password);
    GroupBody(user, password, rest);
    CutAt(credentials, '@', rest, {'@', '/'});
    CutAt(user, ':', password, {':'});
  }

  /** Reading a URI put together from plain parts. */
  lemma ReadParts(user: string, password: string, hosts: string, tail: string)
    requires Free(user, {':', '@', '/'}) && Free(password, {'@', '/'}) && Free(hosts, {'/', '?'})
    ensures ReadBody(Body(user, password, hosts + ("/" + tail))) ==
            Join(Decode(user), Decode(password), ReadEndpoints(hosts), ReadTail(tail))
  {
    ReadCredentials(user, password, hosts + ("/" + tail));
    CutAt(hosts, '/', tail, {'/', '?'});
  }

  lemma ReadTailOf(dbName: string, name: string)
    requires Free(dbName, {'?'}) && Free(name, {'&', '='})
    ensures ReadTail(dbName + ("?" + Params(name))) ==
            match (Decode(dbName), Decode(name)) case (Some(d), Some(n)) => Some((d, n)) case _ => None
  {
    CutAt(dbName, '?', Params(name), {'?'});
    ReadParams(name);
  }

  lemma MoveRest(user: string, password: string, hp: string, pieces: string, tail: string)
    ensures (user + (":" + (password + ("@" + hp)))) + pieces + tail == Body(user, password, (hp + pieces) + tail)
  {
    var p, q := password + ("@" + hp), password + ("@" + ((hp + pieces) + tail));
    assert p + pieces + tail == q;
    assert (":" + p) + pieces + tail == ":" + (p + pieces + tail);
    assert (user + (":" + p)) + pieces + tail == user + ((":" + p) + pieces + tail);
  }

  lemma MoveScheme(scheme: string, authority: string, pieces: string, tail: string)
    ensures ((scheme + authority) + pieces) + tail == scheme + (authority + pieces + tail)
  {
  }

  function Tail(cs: seq<Cluster>, name: string): string
    requires cs != []
  {
    DbName(cs[1..], 1, cs[0].dbName) + ("?" + Params(name))
  }

  function Hosts(cs: seq<Cluster>): string
    requires cs != []
  {
    HostPort(cs[0]) + Pieces(cs[1..], 1)
  }

  lemma BuildIs(cs: seq<Cluster>, name: string)
    requires cs != []
    ensures Build(cs, name) == Pieces(cs, 0) + ("/" + Tail(cs, name))
  {
    assert DbName(cs, 0, "") == DbName(cs[1..], 1, cs[0].dbName);
  }

  lemma FirstPrefix(cs: seq<Cluster>)
    requires cs != []
    ensures Pieces(cs, 0) == (SCHEME + Authority(cs[0])) + Pieces(cs[1..], 1)
  {
    PiecesUnfold(cs, 0);
    PrefixPiece(cs[0]);
  }

  lemma PrefixPiece(c: Cluster)
    ensures Piece(c, 0) == SCHEME + Authority(c) && Next(0) == 1
  {
  }

  lemma BuildSplit(cs: seq<Cluster>, name: string)
    requires cs != []
    ensures Build(cs, name) == SCHEME + (Authority(cs[0]) + Pieces(cs[1..], 1) + ("/" + Tail(cs, name)))
  {
    BuildIs(cs, name);
    FirstPrefix(cs);
    MoveScheme(SCHEME, Authority(cs[0]), Pieces(cs[1..], 1), "/" + Tail(cs, name));
  }

  lemma {:induction false} StripOf(prefix: string, s: string)
    ensures Strip(prefix, prefix + s) == Some(s)
  {
    if prefix == "" {
      assert prefix + s == s;
    } else {
      StripOf(prefix[1..], s);
      assert (prefix + s)[1..] == prefix[1..] + s;
    }
  }

  /** The text of a list is the scheme, the first cluster's credentials, and everything else after them. */
  lemma ReadBuilt(cs: seq<Cluster>, name: string)
    requires cs != []
    ensures Read(Build(cs, name)) == ReadBody(Body(cs[0].user, cs[0].password, Hosts(cs) + ("/" + Tail(cs, name))))
  {
    var c, pieces, tail := cs[0], Pieces(cs[1..], 1), "/" + Tail(cs, name);
    BuildSplit(cs, name);
    MoveRest(c.user, c.password, HostPort(c), pieces, tail);
    StripOf(SCHEME, Authority(c) + pieces + tail);
  }

  lemma {:induction false} EndpointsAt(cs: seq<Cluster>)
    ensures forall i :: 0 <= i < |cs| ==> Endpoints(cs)[i] == Endpoint(cs[i].host, cs[i].port)
  {
    if cs != [] {
      EndpointsAt(cs[1..]);
    }
  }

  ghost predicate PlainHosts(cs: seq<Cluster>) {
    forall i :: 0 <= i < |cs| ==> PlainHost(cs[i].host)
  }

  lemma HostsArePlain(cs: seq<Cluster>, name: string)
    requires cs != [] && Plain(Meant(cs, name))
    ensures PlainHosts(cs)
  {
    EndpointsAt(cs);
    forall i | 0 <= i < |cs| ensures PlainHost(cs[i].host) {
      assert PlainHost(Meant(cs, name).endpoints[i].host);
    }
  }

  lemma OneList(cs: seq<Cluster>)
    requires 0 < |cs| <= WRAP
    ensures Hosts(cs) == HostList(cs)
    ensures DbName(cs[1..], 1, cs[0].dbName) == cs[0].dbName
  {
    if |cs| == 1 {
      assert Pieces(cs[1..], 1) == "";
      AppendNothing(HostPort(cs[0]));
    } else {
      PiecesAreHosts(cs[1..], 1);
    }
  }

  /** Up to 65536 clusters whose fields contain no delimiters, reading the built URI gives each field decoded. */
  lemma ReadsDecoded(cs: seq<Cluster>, name: string)
    requires cs != [] && |cs| <= 65536 && Plain(Meant(cs, name))
    ensures Read(Build(cs, name)) == Decoded(Meant(cs, name))
  {
    var c := cs[0];
    HostsArePlain(cs, name);
    OneList(cs);
    ReadBuilt(cs, name);
    HostListFree(cs);
    ReadParts(c.user, c.password, HostList(cs), c.dbName + ("?" + Params(name)));
    ReadHostList(cs);
    ReadTailOf(c.dbName, name);
  }

  lemma {:induction false} DecodedFree(es: seq<Endpoint>)
    requires forall i :: 0 <= i < |es| ==> Free(es[i].host, {'%', ','})
    ensures DecodedEndpoints(es) == Some(es)
  {
    if es != [] {
      DecodeFree(es[0].host);
      DecodedFree(es[1..]);
      assert [Endpoint(es[0].host, es[0].port)] + es[1..] == es;
    }
  }

  lemma UnencodedDecodes(t: Target)
    requires Clean(t)
    ensures Decoded(t) == Some(t)
  {
    forall i | 0 <= i < |t.endpoints| ensures Free(t.endpoints[i].host, {'%', ','}) {
      assert PlainHost(t.endpoints[i].host);
    }
    DecodeFree(t.user);
    DecodeFree(t.password);
    DecodeFree(t.dbName);
    DecodeFree(t.name);
    DecodedFree(t.endpoints);
  }

  /** So if they contain no '%' either, reading gives back what was meant. */
  lemma RoundTrip(cs: seq<Cluster>, name: string)
    requires cs != [] && |cs| <= 65536 && Clean(Meant(cs, name))
    ensures Read(Build(cs, name)) == Some(Meant(cs, name))
    ensures var t := Read(Build(cs, name)).value;
            && t.user == cs[0].user && t.password == cs[0].password && t.dbName == cs[0].dbName && t.name == name
            && |t.endpoints| == |cs|
            && forall i :: 0 <= i < |cs| ==> t.endpoints[i] == Endpoint(cs[i].host, cs[i].port)
  {
    ReadsDecoded(cs, name);
    UnencodedDecodes(Meant(cs, name));
    EndpointsAt(cs);
  }

  lemma SplitScheme(scheme: string, schemeName: string, body: string, more: string)
    requires scheme == schemeName + "//"
    ensures (scheme + body) + more == schemeName + ("/" + ("/" + (body + more)))
  {
  }

  /** The text of a list that starts with a prefix. */
  lemma SecondPrefix(b: seq<Cluster>) returns (rest: string)
    requires b != []
    ensures Pieces(b, 0) == SCHEME_NAME + ("/" + rest)
  {
    rest := "/" + (Authority(b[0]) + Pieces(b[1..], 1));
    FirstPrefix(b);
    SplitScheme(SCHEME, SCHEME_NAME, Authority(b[0]), Pieces(b[1..], 1));
  }

  lemma JunkIsFree()
    ensures Free(SCHEME_NAME, {'/', '?', ',', '%'}) && SCHEME_NAME != "" && !IsDigit(SCHEME_NAME[0])
  {
  }

  lemma BrokenHostListFree(cs: seq<Cluster>)
    requires cs != [] && PlainHosts(cs)
    ensures Free(HostList(cs) + SCHEME_NAME, {'/', '?'})
    ensures ReadEndpoints(HostList(cs) + SCHEME_NAME) == None
  {
    JunkIsFree();
    HostListFree(cs);
    ReadBrokenHostList(cs, SCHEME_NAME);
  }

  /** Beyond 65536 clusters the URI does not read back at all: the second prefix spoils the port in front of it. */
  lemma WrappedIsUnreadable(cs: seq<Cluster>, name: string)
    requires |cs| > 65536 && PlainCredentials(Meant(cs, name)) && PlainHosts(cs[..65536])
    ensures Read(Build(cs, name)) == None
  {
    var c, tail := cs[0], "/" + Tail(cs, name);
    var rest := WrappedHosts(cs);
    ReadBuilt(cs, name);
    assert (cs[..WRAP])[0] == c;
    GroupEnd(HostList(cs[..WRAP]) + SCHEME_NAME, rest, tail);
    BrokenHostListFree(cs[..WRAP]);
    ReadParts(c.user, c.password, HostList(cs[..WRAP]) + SCHEME_NAME, rest + tail);
  }

  lemma GroupEnd(front: string, rest: string, tail: string)
    ensures (front + ("/" + rest)) + tail == front + ("/" + (rest + tail))
  {
  }

  lemma GroupWrap(hp: string, h: string, junk: string, rest: string)
    ensures hp + (("," + h) + (junk + ("/" + rest))) == ((hp + ("," + h)) + junk) + ("/" + rest)
  {
    var front := hp + ("," + h);
    assert hp + (("," + h) + (junk + ("/" + rest))) == front + (junk + ("/" + rest));
  }

  /** The hosts of a list that is too long: 65536 of them, with a second prefix stuck to the last. */
  lemma WrappedHosts(cs: seq<Cluster>) returns (rest: string)
    requires |cs| > WRAP
    ensures Hosts(cs) == (HostList(cs[..WRAP]) + SCHEME_NAME) + ("/" + rest)
  {
    var a, b := cs[1..WRAP], cs[WRAP..];
    assert cs[1..] == a + b;
    PiecesWrap(a, b, 1);
    rest := SecondPrefix(b);
    GroupWrap(HostPort(cs[0]), HostList(a), SCHEME_NAME, rest);
    assert (cs[..WRAP])[1..] == a;
  }

  // ----- What the round trip forces -----------------------------------------------------------

  lemma {:induction false} CutJoins(s: string, stops: set<char>)
    requires Cut(s, stops).Some?
    ensures var (a, c, b) := Cut(s, stops).value; s == a + ([c] + b)
  {
    if s[0] !in stops {
      CutJoins(s[1..], stops);
      var (a, c, b) := Cut(s[1..], stops).value;
      assert s == [s[0]] + (a + ([c] + b));
    }
  }

  /** A cut adds no characters. */
  lemma CutFree(s: string, stops: set<char>, others: set<char>)
    requires Free(s, others) && Cut(s, stops).Some?
    ensures Free(Cut(s, stops).value.0, stops + others) && Free(Cut(s, stops).value.2, others)
  {
    CutJoins(s, stops);
    var (a, c, b) := Cut(s, stops).value;
    forall i | 0 <= i < |a| ensures a[i] !in others { assert s[i] == a[i]; }
    forall i | 0 <= i < |b| ensures b[i] !in others { assert s[|a| + 1 + i] == b[i]; }
  }

  lemma SameChars(raw: string, s: string)
    requires raw <= s
    ensures forall i :: 0 <= i < |raw| ==> raw[i] == s[i]
  {
  }

  /** What comes before the first `c` is no longer than what comes before some `c`. */
  lemma NoLonger(raw: string, a: string, c: char, b: string)
    requires raw <= a + ([c] + b) && c !in raw
    ensures |raw| <= |a| && raw == a[..|raw|]
  {
    var s := a + ([c] + b);
    SameChars(raw, s);
    assert s[|a|] == c;
  }

  /** What is read in place of `a` ends no later than `a` does. If it decodes to `a`, it is `a`, and nothing was
      encoded. */
  lemma Forced(a: string, c: char, b: string, raw: string)
    requires raw <= a + ([c] + b) && c !in raw && Decode(raw) == Some(a)
    ensures raw == a && Free(a, {'%'})
  {
    NoLonger(raw, a, c, b);
  }

  lemma CancelPrefix(p: string, a: string, b: string)
    requires p + a == p + b
    ensures a == b
  {
    assert (p + a)[|p|..] == a && (p + b)[|p|..] == b;
  }

  lemma UserForced(user: string, rest: string, credentials: string)
    requires credentials <= user + (":" + rest) && Free(credentials, {'@', '/'})
    requires Cut(credentials, {':'}).Some? && Decode(Cut(credentials, {':'}).value.0) == Some(user)
    ensures Free(user, {':', '@', '/', '%'}) && Cut(credentials, {':'}).value.0 == user
    ensures Cut(credentials, {':'}).value.2 <= rest
  {
    var (raw, c, password) := Cut(credentials, {':'}).value;
    CutJoins(credentials, {':'});
    CutFree(credentials, {':'}, {'@', '/'});
    assert raw <= credentials;
    Forced(user, ':', rest, raw);
    var all := user + (":" + rest);
    assert all[|user| + 1..] == rest;
    assert credentials[|user| + 1..] == password;
    assert credentials[|user| + 1..] <= all[|user| + 1..];
  }

  lemma CredentialsForced(user: string, password: string, rest: string)
    requires ReadBody(Body(user, password, rest)).Some?
    requires ReadBody(Body(user, password, rest)).value.user == user
    requires ReadBody(Body(user, password, rest)).value.password == password
    ensures Free(user, {':', '@', '/', '%'}) && Free(password, {'@', '/', '%'})
  {
    var body := Body(user, password, rest);
    var (credentials, _, after) := Cut(body, {'@', '/'}).value;
    CutJoins(body, {'@', '/'});
    UserForced(user, password + ("@" + rest), credentials);
    var raw := Cut(credentials, {':'}).value.2;
    CutFree(credentials, {':'}, {'@', '/'});
    Forced(password, '@', rest, raw);
  }

  lemma RawPrefix(s: string, stops: set<char>, all: string)
    requires s <= all && Cut(s, stops).Some?
    ensures Cut(s, stops).value.0 <= all
  {
    CutJoins(s, stops);
  }

  lemma GroupPort(host: string, port: string, z: string)
    ensures (host + ":" + port) + z == host + ([':'] + (port + z))
  {
  }

  lemma HostForced(c: Cluster, z: string, segment: string)
    requires segment <= HostPort(c) + z && Free(segment, {',', '/', '?'})
    requires ReadEndpoint(segment).Some? && ReadEndpoint(segment).value.host == c.host
    ensures PlainHost(c.host) && Free(c.host, {'%'})
  {
    var raw := Cut(segment, {':'}).value.0;
    RawPrefix(segment, {':'}, HostPort(c) + z);
    CutFree(segment, {':'}, {',', '/', '?'});
    GroupPort(c.host, Print(c.port), z);
    Forced(c.host, ':', Print(c.port) + z, raw);
  }

  /** The first comma is where the first host and port end. */
  lemma SegmentIs(hp: string, z: string, hosts: string)
    requires Free(hp, {','}) && hosts <= hp + ([','] + z) && Cut(hosts, {','}).Some?
    ensures Cut(hosts, {','}).value.0 == hp && Cut(hosts, {','}).value.2 <= z
  {
    var (segment, _, rest) := Cut(hosts, {','}).value;
    var all := hp + ([','] + z);
    CutJoins(hosts, {','});
    SameChars(hosts, all);
    var behind := all[|segment| + 1..];
    assert all == segment + ([','] + behind);
    NoLonger(hp, segment, ',', behind);
    NoLonger(segment, hp, ',', z);
    assert hosts[|hp| + 1..] == rest && all[|hp| + 1..] == z;
  }

  lemma FirstOfList(cs: seq<Cluster>, y: string)
    requires |cs| > 1
    ensures HostList(cs) + y == HostPort(cs[0]) + ([','] + (HostList(cs[1..]) + y))
  {
    GroupList(HostPort(cs[0]), HostList(cs[1..]), y);
  }

  lemma RestOfEndpoints(hosts: string, first: string, c: char, rest: string)
    requires Cut(hosts, {','}) == Some((first, c, rest)) && ReadEndpoints(hosts).Some?
    ensures ReadEndpoint(first).Some? && ReadEndpoints(rest).Some?
    ensures ReadEndpoints(hosts).value == [ReadEndpoint(first).value] + ReadEndpoints(rest).value
  {
  }

  lemma FirstHostForced(c: Cluster, z: string, hosts: string)
    requires hosts <= HostPort(c) + z && Free(hosts, {'/', '?'})
    requires ReadEndpoints(hosts).Some? && ReadEndpoints(hosts).value[0].host == c.host
    ensures PlainHost(c.host) && Free(c.host, {'%'})
  {
    if Cut(hosts, {','}).None? {
      HostForced(c, z, hosts);
    } else {
      CutJoins(hosts, {','});
      CutFree(hosts, {','}, {'/', '?'});
      HostForced(c, z, Cut(hosts, {','}).value.0);
    }
  }

  /** At least the hosts of `cs` are read, and each as it was meant. */
  ghost predicate ReadsHosts(cs: seq<Cluster>, hosts: string) {
    && ReadEndpoints(hosts).Some? && |ReadEndpoints(hosts).value| >= |cs|
    && forall i :: 0 <= i < |cs| ==> ReadEndpoints(hosts).value[i].host == cs[i].host
  }

  lemma ReadsRest(cs: seq<Cluster>, hosts: string, first: string, c: char, rest: string)
    requires |cs| > 1 && ReadsHosts(cs, hosts) && Cut(hosts, {','}) == Some((first, c, rest))
    ensures ReadsHosts(cs[1..], rest)
  {
    RestOfEndpoints(hosts, first, c, rest);
    var es, more := ReadEndpoints(hosts).value, ReadEndpoints(rest).value;
    assert forall i :: 0 <= i < |more| ==> more[i] == es[i + 1];
  }

  lemma NextHosts(cs: seq<Cluster>, y: string, hosts: string) returns (rest: string)
    requires |cs| > 1 && hosts <= HostList(cs) + y && Free(hosts, {'/', '?'}) && ReadsHosts(cs, hosts)
    requires PlainHost(cs[0].host)
    ensures rest <= HostList(cs[1..]) + y && Free(rest, {'/', '?'}) && ReadsHosts(cs[1..], rest)
  {
    HasComma(cs, hosts);
    var cut := Cut(hosts, {','}).value;
    rest := cut.2;
    FirstOfList(cs, y);
    HostPortFree(cs[0]);
    SegmentIs(HostPort(cs[0]), HostList(cs[1..]) + y, hosts);
    CutFree(hosts, {','}, {'/', '?'});
    ReadsRest(cs, hosts, cut.0, cut.1, rest);
  }

  lemma HasComma(cs: seq<Cluster>, hosts: string)
    requires |cs| > 1 && ReadsHosts(cs, hosts)
    ensures Cut(hosts, {','}).Some? && Cut(hosts, {','}).value.1 == ','
  {
  }

  /** Every host that is read back as it was meant contains no delimiter and no '%'. */
  lemma {:induction false} HostsForced(cs: seq<Cluster>, y: string, hosts: string)
    requires cs != [] && hosts <= HostList(cs) + y && Free(hosts, {'/', '?'}) && ReadsHosts(cs, hosts)
    ensures forall i :: 0 <= i < |cs| ==> PlainHost(cs[i].host) && Free(cs[i].host, {'%'})
  {
    if |cs| == 1 {
      FirstHostForced(cs[0], y, hosts);
    } else {
      FirstOfList(cs, y);
      FirstHostForced(cs[0], [','] + (HostList(cs[1..]) + y), hosts);
      var rest := NextHosts(cs, y, hosts);
      HostsForced(cs[1..], y, rest);
      assert forall i :: 0 < i < |cs| ==> cs[i] == cs[1..][i - 1];
    }
  }

  lemma FreeBehind(s: string, n: nat, stops: set<char>)
    requires n <= |s| && Free(s, stops)
    ensures Free(s[n..], stops)
  {
  }

  lemma FreeBefore(a: string, b: string, stops: set<char>)
    requires Free(a + b, stops)
    ensures Free(a, stops)
  {
    assert forall i :: 0 <= i < |a| ==> a[i] == (a + b)[i];
  }

  lemma NameForced(name: string)
    requires ReadName(Params(name)) == Some(name)
    ensures Free(name, {'&', '=', '%'})
  {
    var (first, _, rest) := Cut(Params(name), {'&'}).value;
    var raw, text := first[|NAME_KEY|..], name + NAME_SUFFIX;
    CutJoins(Params(name), {'&'});
    ParamsSplit(name);
    assert Params(name) == NAME_KEY + (raw + (['&'] + rest));
    CancelPrefix(NAME_KEY, raw + (['&'] + rest), text + (['&'] + TIMEOUT));
    Forced(text, '&', TIMEOUT, raw);
    FreeBehind(first, |NAME_KEY|, {'&'});
    assert Free(text, {'&', '=', '%'});
    FreeBefore(name, NAME_SUFFIX, {'&', '=', '%'});
  }

  lemma DbNameForced(dbName: string, params: string)
    requires Cut(dbName + (['?'] + params), {'?'}).Some?
    requires Decode(Cut(dbName + (['?'] + params), {'?'}).value.0) == Some(dbName)
    ensures Free(dbName, {'?', '%'}) && Cut(dbName + (['?'] + params), {'?'}).value.2 == params
  {
    var (raw, c, rest) := Cut(dbName + (['?'] + params), {'?'}).value;
    var tail := dbName + (['?'] + params);
    CutJoins(tail, {'?'});
    Forced(dbName, '?', params, raw);
    assert tail[|dbName| + 1..] == rest && tail[|dbName| + 1..] == params;
  }

  lemma TailForced(dbName: string, name: string)
    requires ReadTail(dbName + ("?" + Params(name))) == Some((dbName, name))
    ensures Free(dbName, {'?', '%'}) && Free(name, {'&', '=', '%'})
  {
    DbNameForced(dbName, Params(name));
    NameForced(name);
  }

  /** The clusters whose hosts follow the first prefix. */
  function FirstRound(cs: seq<Cluster>): seq<Cluster> {
    if |cs| > WRAP then cs[..WRAP] else cs
  }

  lemma HostsBegin(cs: seq<Cluster>) returns (y: string)
    requires cs != []
    ensures Hosts(cs) == HostList(FirstRound(cs)) + y
  {
    if |cs| > WRAP {
      var rest := WrappedHosts(cs);
      y := SCHEME_NAME + ("/" + rest);
      Append(HostList(cs[..WRAP]), SCHEME_NAME, "/" + rest);
    } else {
      OneList(cs);
      y := "";
      AppendNothing(HostList(cs));
    }
  }

  lemma HostsPrefix(cs: seq<Cluster>, tail: string) returns (y: string)
    requires cs != [] && Cut(Hosts(cs) + ("/" + tail), {'/', '?'}).Some?
    ensures Cut(Hosts(cs) + ("/" + tail), {'/', '?'}).value.0 <= HostList(FirstRound(cs)) + y
  {
    var rest := Hosts(cs) + ("/" + tail);
    RawPrefix(rest, {'/', '?'}, rest);
    var begin := HostsBegin(cs);
    y := begin + ("/" + tail);
    Append(HostList(FirstRound(cs)), begin, "/" + tail);
  }

  /** The hosts that are read, cut from everything behind the credentials. */
  lemma AllHostsForced(cs: seq<Cluster>, tail: string, user: Option<string>, password: Option<string>)
    requires cs != [] && ReadAfter(user, password, Hosts(cs) + ("/" + tail)).Some?
    requires ReadAfter(user, password, Hosts(cs) + ("/" + tail)).value.endpoints == Endpoints(cs)
    ensures forall i :: 0 <= i < |FirstRound(cs)| ==> PlainHost(cs[i].host) && Free(cs[i].host, {'%'})
  {
    var hosts := Cut(Hosts(cs) + ("/" + tail), {'/', '?'}).value.0;
    AfterReadsHosts(user, password, Hosts(cs) + ("/" + tail));
    var y := HostsPrefix(cs, tail);
    FirstEndpoints(cs);
    HostsForced(FirstRound(cs), y, hosts);
  }

  lemma AfterReadsHosts(user: Option<string>, password: Option<string>, rest: string)
    requires ReadAfter(user, password, rest).Some?
    ensures Cut(rest, {'/', '?'}).Some?
    ensures ReadEndpoints(Cut(rest, {'/', '?'}).value.0) == Some(ReadAfter(user, password, rest).value.endpoints)
  {
  }

  lemma FirstEndpoints(cs: seq<Cluster>)
    requires cs != []
    ensures |FirstRound(cs)| <= |cs| && FirstRound(cs) != []
    ensures forall i :: 0 <= i < |FirstRound(cs)| ==>
              FirstRound(cs)[i] == cs[i] && Endpoints(cs)[i].host == FirstRound(cs)[i].host
  {
    EndpointsAt(cs);
  }

  /** A list that reads back as it was meant has clean credentials and, up to the point where the counter wraps, clean
      hosts. */
  lemma FieldsForced(cs: seq<Cluster>, name: string)
    requires cs != [] && Read(Build(cs, name)) == Some(Meant(cs, name))
    ensures Free(cs[0].user, {':', '@', '/', '%'}) && Free(cs[0].password, {'@', '/', '%'})
    ensures forall i :: 0 <= i < |FirstRound(cs)| ==> PlainHost(cs[i].host) && Free(cs[i].host, {'%'})
  {
    var c, rest := cs[0], Hosts(cs) + ("/" + Tail(cs, name));
    ReadBuilt(cs, name);
    CredentialsForced(c.user, c.password, rest);
    ReadCredentials(c.user, c.password, rest);
    AllHostsForced(cs, Tail(cs, name), Decode(c.user), Decode(c.password));
  }

  lemma TailPartForced(cs: seq<Cluster>, name: string)
    requires 0 < |cs| <= WRAP && Read(Build(cs, name)) == Some(Meant(cs, name))
    requires PlainCredentials(Meant(cs, name)) && PlainHosts(cs)
    ensures Free(cs[0].dbName, {'?', '%'}) && Free(name, {'&', '=', '%'})
  {
    var c, tail := cs[0], cs[0].dbName + ("?" + Params(name));
    OneList(cs);
    ReadBuilt(cs, name);
    HostListFree(cs);
    ReadParts(c.user, c.password, HostList(cs), tail);
    TailForced(c.dbName, name);
  }

  /** It has no more than 65536 clusters, and all its fields are clean. */
  lemma RoundTripForces(cs: seq<Cluster>, name: string)
    requires cs != [] && Read(Build(cs, name)) == Some(Meant(cs, name))
    ensures |cs| <= 65536 && Clean(Meant(cs, name))
  {
    FieldsForced(cs, name);
    if |cs| > WRAP {
      WrappedIsUnreadable(cs, name);
    } else {
      TailPartForced(cs, name);
      EndpointsAt(cs);
    }
  }

  /** No field contains a delimiter or a '%', in characters. */
  lemma CleanExactly(cs: seq<Cluster>, name: string)
    requires cs != []
    ensures Clean(Meant(cs, name)) <==>
            && (forall c :: c in cs[0].user ==> c !in {':', '@', '/', '%'})
            && (forall c :: c in cs[0].password ==> c !in {'@', '/', '%'})
            && (forall c :: c in cs[0].dbName ==> c !in {'?', '%'})
            && (forall c :: c in name ==> c !in {'&', '=', '%'})
            && (forall i :: 0 <= i < |cs| ==> HostIsClean(cs[i].host))
  {
    EndpointsAt(cs);
    forall i | 0 <= i < |cs|
      ensures HostIsClean(cs[i].host) <==> PlainHost(cs[i].host) && Free(cs[i].host, {'%'})
    {
      CharsFree(cs[i].host, {':', '/', '?', ',', '%'});
    }
    CharsFree(cs[0].user, {':', '@', '/', '%'});
    CharsFree(cs[0].password, {'@', '/', '%'});
    CharsFree(cs[0].dbName, {'?', '%'});
    CharsFree(name, {'&', '=', '%'});
  }

  ghost predicate HostIsClean(host: string) {
    (forall c :: c in host ==> c !in {':', '/', '?', ',', '%'}) && (host != "" ==> host[0] != '[')
  }

  lemma CharsFree(s: string, stops: set<char>)
    ensures Free(s, stops) <==> forall c :: c in s ==> c !in stops
  {
  }

  /** Reading gives back what was meant exactly when there are at most 65536 clusters and no field contains a delimiter
      or a '%': the builder encodes nothing. */
  lemma RoundTripExactly(cs: seq<Cluster>, name: string)
    requires cs != []
    ensures Read(Build(cs, name)) == Some(Target(cs[0].user, cs[0].password, Endpoints(cs), cs[0].dbName, name)) <==>
            && |cs| <= 65536
            && (forall c :: c in cs[0].user ==> c !in {':', '@', '/', '%'})
            && (forall c :: c in cs[0].password ==> c !in {'@', '/', '%'})
            && (forall c :: c in cs[0].dbName ==> c !in {'?', '%'})
            && (forall c :: c in name ==> c !in {'&', '=', '%'})
            && (forall i :: 0 <= i < |cs| ==> HostIsClean(cs[i].host))
  {
    CleanExactly(cs, name);
    if Read(Build(cs, name)) == Some(Meant(cs, name)) {
      RoundTripForces(cs, name);
    } else if |cs| <= 65536 && Clean(Meant(cs, name)) {
      RoundTrip(cs, name);
    }
  }

  // ----- The text itself ----------------------------------------------------------------------

  lemma PrefixText(c: Cluster)
    ensures Piece(c, 0) == "postgresql://" + c.user + ":" + c.password + "@" + c.host + ":" + Print(c.port)
  {
    Regroup3("postgresql://", c.user, ":", c.password + "@" + HostPort(c));
    assert "postgresql:" + "//" == "postgresql://";
    assert c.password + "@" + HostPort(c) == c.password + ("@" + HostPort(c));
    assert "postgresql://" + c.user + ":" + (c.password + ("@" + (c.host + ":" + Print(c.port)))) ==
           "postgresql://" + c.user + ":" + c.password + "@" + c.host + ":" + Print(c.port);
  }

  lemma Regroup3(a: string, b: string, c: string, d: string)
    ensures a + (b + c + d) == a + b + c + d
  {
  }

  lemma ParamsText(name: string)
    ensures Params(name) == "application_name=" + (name + "::nvql&connect_timeout=5")
  {
    var suffix := "::nvql" + ("&" + "connect_timeout=5");
    assert suffix == "::nvql&connect_timeout=5";
    assert Params(name) == "application_name=" + (name + suffix);
  }

  lemma EndText(dbName: string, name: string)
    ensures End(dbName, name) == "/" + dbName + "?application_name=" + name + "::nvql&connect_timeout=5"
  {
    var rest := name + "::nvql&connect_timeout=5";
    ParamsText(name);
    assert "?" + ("application_name=" + rest) == "?application_name=" + rest by {
      assert "?" + "application_name=" == "?application_name=";
      Append("?", "application_name=", rest);
    }
    EndJoin(dbName, "?application_name=", name, "::nvql&connect_timeout=5");
  }

  lemma EndJoin(dbName: string, key: string, name: string, suffix: string)
    ensures "/" + (dbName + (key + (name + suffix))) == "/" + dbName + key + name + suffix
  {
  }

  /** The URI of one cluster. */
  lemma OneClusterText(c: Cluster, name: string)
    ensures Build([c], name) ==
            "postgresql://" + c.user + ":" + c.password + "@" + c.host + ":" + Print(c.port)
            + ("/" + c.dbName + "?application_name=" + name + "::nvql&connect_timeout=5")
  {
    PrefixText(c);
    EndText(c.dbName, name);
    assert [c][1..] == [];
    assert Pieces([c], 0) == Piece(c, 0) + Pieces([], 1);
    AppendNothing(Piece(c, 0));
    assert DbName([c], 0, "") == DbName([], 1, c.dbName);
  }

  /** One more cluster appends one more piece; the counter is back at zero after 65536 rounds. */
  lemma {:induction false} PiecesGrow(cs: seq<Cluster>, c: Cluster, index: nat)
    requires index < 65536 && index + |cs| <= 65536
    ensures Pieces(cs + [c], index) == Pieces(cs, index) + Piece(c, if index + |cs| == 65536 then 0 else index + |cs|)
    ensures forall d :: DbName(cs + [c], index, d) ==
              if index + |cs| == 65536 || index + |cs| == 0 then c.dbName else DbName(cs, index, d)
  {
    if cs == [] {
      assert cs + [c] == [c] && [c][1..] == [];
      AppendNothing(Piece(c, index));
    } else {
      assert (cs + [c])[1..] == cs[1..] + [c];
      PiecesGrow(cs[1..], c, Next(index));
      Append(Piece(cs[0], index), Pieces(cs[1..], Next(index)),
             Piece(c, if index + |cs| == 65536 then 0 else index + |cs|));
    }
  }

  function End(dbName: string, name: string): string {
    "/" + (dbName + ("?" + Params(name)))
  }

  lemma BuildGrows(cs: seq<Cluster>, c: Cluster, name: string, index: nat, dbName: string)
    requires 0 < |cs| <= 65536
    requires index == (if |cs| == 65536 then 0 else |cs|) && dbName == (if index == 0 then c.dbName else cs[0].dbName)
    ensures Build(cs, name) == Pieces(cs, 0) + End(cs[0].dbName, name)
    ensures Build(cs + [c], name) == (Pieces(cs, 0) + Piece(c, index)) + End(dbName, name)
  {
    FirstDbName(cs);
    PiecesGrow(cs, c, 0);
    assert DbName(cs + [c], 0, "") == dbName;
    BuildText(cs, name);
    BuildText(cs + [c], name);
  }

  lemma FirstDbName(cs: seq<Cluster>)
    requires 0 < |cs| <= 65536
    ensures DbName(cs, 0, "") == cs[0].dbName
  {
    OneList(cs);
  }

  lemma BuildText(cs: seq<Cluster>, name: string)
    requires cs != []
    ensures Build(cs, name) == Pieces(cs, 0) + End(DbName(cs, 0, ""), name)
  {
  }

  /** Up to 65536 clusters, each further one adds a comma, its host and its port behind the hosts before it. */
  lemma NextClusterText(cs: seq<Cluster>, c: Cluster, name: string) returns (head: string)
    requires 0 < |cs| < 65536
    ensures Build(cs, name) == head + ("/" + cs[0].dbName + "?application_name=" + name + "::nvql&connect_timeout=5")
    ensures Build(cs + [c], name) ==
            head + ("," + c.host + ":" + Print(c.port))
            + ("/" + cs[0].dbName + "?application_name=" + name + "::nvql&connect_timeout=5")
  {
    head := Pieces(cs, 0);
    BuildGrows(cs, c, name, |cs|, cs[0].dbName);
    EndText(cs[0].dbName, name);
    assert Piece(c, |cs|) == "," + c.host + ":" + Print(c.port);
  }

  /** The next one begins again: a second prefix right behind the last port, and its own database. */
  lemma WrappedClusterText(cs: seq<Cluster>, c: Cluster, name: string) returns (head: string)
    requires |cs| == 65536
    ensures Build(cs, name) == head + ("/" + cs[0].dbName + "?application_name=" + name + "::nvql&connect_timeout=5")
    ensures Build(cs + [c], name) ==
            head + ("postgresql://" + c.user + ":" + c.password + "@" + c.host + ":" + Print(c.port))
            + ("/" + c.dbName + "?application_name=" + name + "::nvql&connect_timeout=5")
  {
    head := Pieces(cs, 0);
    BuildGrows(cs, c, name, 0, c.dbName);
    PrefixText(c);
    EndText(cs[0].dbName, name);
    EndText(c.dbName, name);
  }

  /** Decoding takes two hexadecimal digits, of either case, for the character they number. */
  lemma DecodeExactly(a: nat, b: nat, rest: string)
    requires a < 16 && b < 16 && a + b > 0
    ensures Decode(['%', "0123456789ABCDEF"[a], "0123456789ABCDEF"[b]] + rest) ==
            Prepend((16 * a + b) as char, Decode(rest))
    ensures Decode(['%', "0123456789abcdef"[a], "0123456789abcdef"[b]] + rest) ==
            Prepend((16 * a + b) as char, Decode(rest))
  {
    HexDigits(a);
    HexDigits(b);
    DecodeTriple("0123456789ABCDEF"[a], "0123456789ABCDEF"[b], rest);
    DecodeTriple("0123456789abcdef"[a], "0123456789abcdef"[b], rest);
  }

  lemma HexDigits(a: nat)
    requires a < 16
    ensures IsHex("0123456789ABCDEF"[a]) && HexValue("0123456789ABCDEF"[a]) == a
    ensures IsHex("0123456789abcdef"[a]) && HexValue("0123456789abcdef"[a]) == a
  {
  }

  lemma DecodeTriple(x: char, y: char, rest: string)
    requires IsHex(x) && IsHex(y) && HexValue(x) + HexValue(y) > 0
    ensures Decode(['%', x, y] + rest) == Prepend((HexValue(x) * 16 + HexValue(y)) as char, Decode(rest))
  {
    var s := ['%', x, y] + rest;
    assert s[0] == '%' && s[1] == x && s[2] == y && s[3..] == rest;
  }

  // ----- A builder that encodes ---------------------------------------------------------------

  /** The characters that never need encoding. */
  predicate Unreserved(c: char) {
    IsDigit(c) || 'a' <= c <= 'z' || 'A' <= c <= 'Z' || c in {'-', '.', '_', '~'}
  }

  function Hex(d: nat): (c: char)
    requires d < 16
    ensures IsHex(c) && HexValue(c) == d && Unreserved(c)
  {
    if d < 10 then Digit(d) else ('A' as int + d - 10) as char
  }

  /** Texts are bytes without a terminating zero. */
  predicate Bytes(s: string) {
    forall i :: 0 <= i < |s| ==> 0 < s[i] as int < 256
  }

  function EncodeChar(c: char): string
    requires c as int < 256
  {
    if Unreserved(c) then [c] else ['%', Hex(c as int / 16), Hex(c as int % 16)]
  }

  function Encode(s: string): string
    requires Bytes(s)
  {
    if s == "" then "" else EncodeChar(s[0]) + Encode(s[1..])
  }

  lemma LeadOfEncoded(c: char, rest: string)
    requires 0 < c as int < 256
    ensures Lead(EncodeChar(c) + rest) == Some((c, |EncodeChar(c)|))
    ensures (EncodeChar(c) + rest)[|EncodeChar(c)|..] == rest
  {
    var n := c as int;
    assert n == n / 16 * 16 + n % 16;
  }

  lemma {:induction false} DecodeOfEncode(s: string)
    requires Bytes(s)
    ensures Decode(Encode(s)) == Some(s)
  {
    if s != "" {
      DecodeOfEncode(s[1..]);
      LeadOfEncoded(s[0], Encode(s[1..]));
      assert [s[0]] + s[1..] == s;
    }
  }

  lemma {:induction false} EncodeFree(s: string)
    requires Bytes(s)
    ensures forall i :: 0 <= i < |Encode(s)| ==> Unreserved(Encode(s)[i]) || Encode(s)[i] == '%'
  {
    if s != "" {
      EncodeFree(s[1..]);
    }
  }

  predicate BytesOnly(c: Cluster) {
    Bytes(c.dbName) && Bytes(c.user) && Bytes(c.password) && Bytes(c.host)
  }

  function EncodeCluster(c: Cluster): Cluster
    requires BytesOnly(c)
  {
    Cluster(Encode(c.dbName), Encode(c.user), Encode(c.password), Encode(c.host), c.port)
  }

  function EncodeAll(cs: seq<Cluster>): (r: seq<Cluster>)
    requires forall i :: 0 <= i < |cs| ==> BytesOnly(cs[i])
    ensures |r| == |cs| && forall i :: 0 <= i < |cs| ==> r[i] == EncodeCluster(cs[i])
  {
    seq(|cs|, i requires 0 <= i < |cs| => EncodeCluster(cs[i]))
  }

  ghost predicate NoCommas(es: seq<Endpoint>) {
    forall i :: 0 <= i < |es| ==> Free(es[i].host, {','})
  }

  lemma {:induction false} DecodedEncoded(es: seq<Endpoint>, encoded: seq<Endpoint>)
    requires |es| == |encoded|
    requires forall i :: 0 <= i < |es| ==>
               Bytes(es[i].host) && encoded[i] == Endpoint(Encode(es[i].host), es[i].port)
    ensures DecodedEndpoints(encoded) == if NoCommas(es) then Some(es) else None
  {
    if es != [] {
      DecodeOfEncode(es[0].host);
      DecodedEncoded(es[1..], encoded[1..]);
      assert es == [es[0]] + es[1..];
      assert NoCommas(es) <==> Free(es[0].host, {','}) && NoCommas(es[1..]);
    }
  }

  /** An encoded text contains no delimiter. */
  lemma EncodedHasNoStops(s: string)
    requires Bytes(s)
    ensures Free(Encode(s), {':', '@', '/', '?', '&', '=', ',', '['}) && PlainHost(Encode(s))
  {
    EncodeFree(s);
  }

  lemma EncodedHostsPlain(cs: seq<Cluster>)
    requires forall i :: 0 <= i < |cs| ==> BytesOnly(cs[i])
    ensures forall i :: 0 <= i < |cs| ==> PlainHost(Endpoints(EncodeAll(cs))[i].host)
  {
    EndpointsAt(EncodeAll(cs));
    forall i | 0 <= i < |cs| ensures PlainHost(Endpoints(EncodeAll(cs))[i].host) {
      assert BytesOnly(cs[i]);
      EncodedHasNoStops(cs[i].host);
    }
  }

  lemma EncodedIsPlain(cs: seq<Cluster>, name: string)
    requires cs != [] && Bytes(name) && forall i :: 0 <= i < |cs| ==> BytesOnly(cs[i])
    ensures Plain(Meant(EncodeAll(cs), Encode(name)))
  {
    EncodedHasNoStops(cs[0].user);
    EncodedHasNoStops(cs[0].password);
    EncodedHasNoStops(cs[0].dbName);
    EncodedHasNoStops(name);
    EncodedHostsPlain(cs);
  }

  lemma EncodedDecodes(cs: seq<Cluster>, name: string)
    requires cs != [] && Bytes(name) && forall i :: 0 <= i < |cs| ==> BytesOnly(cs[i])
    ensures Decoded(Meant(EncodeAll(cs), Encode(name))) ==
            if NoCommas(Endpoints(cs)) then Some(Meant(cs, name)) else None
  {
    DecodeOfEncode(cs[0].user);
    DecodeOfEncode(cs[0].password);
    DecodeOfEncode(cs[0].dbName);
    DecodeOfEncode(name);
    EndpointsAt(cs);
    EndpointsAt(EncodeAll(cs));
    DecodedEncoded(Endpoints(cs), Endpoints(EncodeAll(cs)));
  }

  /** Had the builder encoded its fields, reading would give back a list of up to 65536 clusters, whatever the fields
      contain, exactly if no host contains a comma. */
  lemma EncodedRoundTrip(cs: seq<Cluster>, name: string)
    requires 0 < |cs| <= 65536 && Bytes(name) && forall i :: 0 <= i < |cs| ==> BytesOnly(cs[i])
    ensures Read(Build(EncodeAll(cs), Encode(name))) == Some(Meant(cs, name)) <==> NoCommas(Endpoints(cs))
  {
    EncodedIsPlain(cs, name);
    ReadsDecoded(EncodeAll(cs), Encode(name));
    EncodedDecodes(cs, name);
  }
}
