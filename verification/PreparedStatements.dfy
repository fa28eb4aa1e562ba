/** The prepared-statement cache of a connection, and what executing through it means. */
module PreparedStatements {
  import opened Decimal

  // ----- Queries and their keys ---------------------------------------------------------------

  /** Empty, or whitespace only: `Register` refuses these. */
  predicate Blank(q: string) {
    forall i :: 0 <= i < |q| ==> IsSpace(q[i])
  }

  function GenerateKey(hash: nat): string {
    "nvql_" + Print(hash)
  }

  lemma GenerateKeyInjective(g: nat, h: nat)
    requires GenerateKey(g) == GenerateKey(h)
    ensures g == h
  {
    assert GenerateKey(g)[5..] == Print(g) && GenerateKey(h)[5..] == Print(h);
    PrintInjective(g, h);
  }

  datatype Item = Item(name: string, query: string, created: int)

  type Statements = map<string, Item>

  function Registered(hash: string -> nat, st: Statements, q: string, now: int): (Statements, Option<(string, bool)>) {
    if Blank(q) then (st, None)
    else
      var key := GenerateKey(hash(q));
      if key in st then (st, Some((key, false)))
      else (st[key := Item(Print(hash(q)), q, now)], Some((key, true)))
  }

  /** One per connection; its map is only ever inserted into. */
  class PreparedStatementManager {
    const hash: string -> nat
    var statements: Statements

    constructor (hash: string -> nat)
      ensures this.hash == hash && statements == map[]
    {
      this.hash := hash;
      statements := map[];
    }

    method Register(query: string, now: int) returns (r: Option<(string, bool)>)
      modifies this
      ensures (statements, r) == Registered(hash, old(statements), query, now)
      ensures r.None? <==> forall i :: 0 <= i < |query| ==> query[i] == ' ' || 9 <= query[i] as int <= 13
      ensures r.None? ==> statements == old(statements)
      ensures r.Some? ==>
                var key := "nvql_" + Print(hash(query));
                && r.value == (key, key !in old(statements))
                && statements == if key in old(statements) then old(statements)
                                 else old(statements)[key := Item(Print(hash(query)), query, now)]
    {
      if query == "" {
        return None;
      }
      if Blank(query) {
        return None;
      }
      var hashed := hash(query);
      var key := GenerateKey(hashed);
      var known := IsKeyExist(key);
      if known {
        return Some((key, false));
      }
      statements := statements[key := Item(Print(hashed), query, now)];
      return Some((key, true));
    }

    method IsKeyExist(key: string) returns (b: bool)
      ensures b <==> key in statements
    {
      b := key in statements;
    }

    method IsQueryExist(query: string) returns (b: bool)
      ensures b <==> GenerateKey(hash(query)) in statements
    {
      b := IsKeyExist(GenerateKey(hash(query)));
    }
  }

  // ----- Parameters ---------------------------------------------------------------------------

  /** A parameter by its data type. `Timestampz` carries its ISO 8601 rendering. */
  datatype Param =
    | SmallInt(i: int) | Int(i: int) | BigInt(i: int) | Real(r: real) | Double(r: real) | String(s: string)
    | Boolean(b: bool) | Date | Time | Timestamp(t: int) | Timestampz(s: string)

  datatype Wire = Number(i: int) | Float(r: real) | Text(s: string) | Flag(b: bool)

  function ToWire(p: Param): Option<Wire> {
    match p
    case SmallInt(i) => Some(Number(i))
    case Int(i) => Some(Number(i))
    case BigInt(i) => Some(Number(i))
    case Real(r) => Some(Float(r))
    case Double(r) => Some(Float(r))
    case String(s) => Some(Text(s))
    case Boolean(b) => Some(Flag(b))
    case Timestampz(s) => Some(Text(s))
    case _ => None
  }

  predicate Supported(args: seq<Param>) {
    forall i :: 0 <= i < |args| ==> ToWire(args[i]).Some?
  }

  function Translated(args: seq<Param>): seq<Wire>
    requires Supported(args)
  {
    seq(|args|, i requires 0 <= i < |args| => ToWire(args[i]).value)
  }

  /** The wire value of a parameter of each supported type. */
  ghost predicate Carries(p: Param, w: Wire) {
    match p
    case SmallInt(i) => w == Number(i)
    case Int(i) => w == Number(i)
    case BigInt(i) => w == Number(i)
    case Real(x) => w == Float(x)
    case Double(x) => w == Float(x)
    case String(s) => w == Text(s)
    case Boolean(b) => w == Flag(b)
    case Timestampz(s) => w == Text(s)
    case _ => false
  }

  /** One wire value for each parameter, in the same order. */
  ghost predicate AllCarried(args: seq<Param>, wires: seq<Wire>) {
    |wires| == |args| && forall i :: 0 <= i < |args| ==> Carries(args[i], wires[i])
  }

  ghost predicate SomeUnsupported(args: seq<Param>) {
    exists i :: 0 <= i < |args| && (args[i].Date? || args[i].Time? || args[i].Timestamp?)
  }

  lemma TranslatedCarries(args: seq<Param>)
    ensures Supported(args) <==> !SomeUnsupported(args)
    ensures Supported(args) ==> AllCarried(args, Translated(args))
  {
    if Supported(args) {
      forall i | 0 <= i < |args| ensures Carries(args[i], Translated(args)[i]) && !args[i].Date? {
        assert ToWire(args[i]).Some?;
      }
    }
  }

  /** Parameters are appended in order; the first unsupported data type raises. */
  method TranslateParams(args: seq<Param>) returns (r: Option<seq<Wire>>)
    ensures r == if Supported(args) then Some(Translated(args)) else None
    ensures r.None? <==> exists i :: 0 <= i < |args| && (args[i].Date? || args[i].Time? || args[i].Timestamp?)
    ensures r.Some? ==> |r.value| == |args|
    ensures r.Some? ==> forall i :: 0 <= i < |args| ==>
              && (args[i].SmallInt? || args[i].Int? || args[i].BigInt? ==> r.value[i] == Number(args[i].i))
              && (args[i].Real? || args[i].Double? ==> r.value[i] == Float(args[i].r))
              && (args[i].String? || args[i].Timestampz? ==> r.value[i] == Text(args[i].s))
              && (args[i].Boolean? ==> r.value[i] == Flag(args[i].b))
  {
    TranslatedCarries(args);
    var wires: seq<Wire> := [];
    for i := 0 to |args|
      invariant |wires| == i
      invariant forall j :: 0 <= j < i ==> ToWire(args[j]) == Some(wires[j])
    {
      match ToWire(args[i])
      case Some(w) => wires := wires + [w];
      case None => return None;
    }
    assert wires == Translated(args);
    return Some(wires);
  }

  // ----- Executing ----------------------------------------------------------------------------

  /** What reaches the server, or why nothing does. */
  datatype Outcome =
    | Ran(text: string, params: seq<Wire>)
    | EmptyQuery
    | PrepareFailed
    | BadParameter
    | NoSuchStatement(name: string)

  /** A connection's manager together with the statements its session has prepared. */
  datatype Cache = Cache(statements: Statements, prepared: map<string, string>)

  const EMPTY := Cache(map[], map[])

  /** One call of Execute; `ok` says whether the server accepts the text, should it be asked to prepare it. */
  datatype Query = Query(text: string, args: seq<Param>, ok: bool, now: int)

  /** The session prepares a text; a name it already knows is an error. */
  function Prepare(prepared: map<string, string>, name: string, text: string, ok: bool): Option<map<string, string>> {
    if ok && name !in prepared then Some(prepared[name := text]) else None
  }

  function RunPrepared(prepared: map<string, string>, name: string, args: seq<Param>): Outcome {
    if !Supported(args) then BadParameter
    else if name !in prepared then NoSuchStatement(name)
    else Ran(prepared[name], Translated(args))
  }

  function Execute(hash: string -> nat, c: Cache, q: Query): (Cache, Outcome) {
    var (st, key) := Registered(hash, c.statements, q.text, q.now);
    match key
    case None => (c, EmptyQuery)
    case Some((name, false)) => (c.(statements := st), RunPrepared(c.prepared, name, q.args))
    case Some((name, true)) =>
      match Prepare(c.prepared, name, q.text, q.ok)
      case None => (c.(statements := st), PrepareFailed)
      case Some(prepared) => (Cache(st, prepared), RunPrepared(prepared, name, q.args))
  }

  function ExecuteNonPrepared(q: Query): Outcome {
    if q.text == "" then EmptyQuery
    else if !Supported(q.args) then BadParameter
    else Ran(q.text, Translated(q.args))
  }

  /** What Execute runs carries every parameter in its place, and it raises on a parameter exactly if it gets that far
      and some parameter is of a type that is not supported. */
  lemma ExecuteCarries(hash: string -> nat, c: Cache, q: Query)
    ensures var o := Execute(hash, c, q).1;
            && (o.Ran? ==> AllCarried(q.args, o.params))
            && (o.BadParameter? ==> SomeUnsupported(q.args))
            && (SomeUnsupported(q.args) ==> o.EmptyQuery? || o.PrepareFailed? || o.BadParameter?)
  {
    TranslatedCarries(q.args);
  }

  /** Direct execution sends the text itself, blank or not, with every parameter in its place. */
  lemma DirectExactly(q: Query)
    ensures var o := ExecuteNonPrepared(q);
            && (o == EmptyQuery <==> q.text == "")
            && (o == BadParameter <==> q.text != "" && SomeUnsupported(q.args))
            && (q.text != "" && !SomeUnsupported(q.args) ==>
                  o.Ran? && o.text == q.text && AllCarried(q.args, o.params))
  {
    TranslatedCarries(q.args);
  }

  /** The name a call sends to the session to be prepared, if any. */
  function Sends(hash: string -> nat, c: Cache, q: Query): seq<string> {
    match Registered(hash, c.statements, q.text, q.now).1
    case Some((name, true)) => [name]
    case _ => []
  }

  // ----- Histories ----------------------------------------------------------------------------

  function Replay(hash: string -> nat, qs: seq<Query>): Cache {
    if qs == [] then EMPTY else Execute(hash, Replay(hash, qs[..|qs| - 1]), qs[|qs| - 1]).0
  }

  function Sent(hash: string -> nat, qs: seq<Query>): seq<string> {
    if qs == [] then []
    else
      var front := qs[..|qs| - 1];
      Sent(hash, front) + Sends(hash, Replay(hash, front), qs[|qs| - 1])
  }

  /** The first accepted query of a history with this hash. */
  function First(hash: string -> nat, qs: seq<Query>, h: nat): Option<Query> {
    if qs == [] then None
    else
      var front, last := qs[..|qs| - 1], qs[|qs| - 1];
      if First(hash, front, h).Some? then First(hash, front, h)
      else if !Blank(last.text) && hash(last.text) == h then Some(last)
      else None
  }

  lemma {:induction false} FirstExists(hash: string -> nat, qs: seq<Query>, h: nat)
    ensures First(hash, qs, h).Some? <==> exists i :: 0 <= i < |qs| && !Blank(qs[i].text) && hash(qs[i].text) == h
    ensures First(hash, qs, h).Some? ==>
              && First(hash, qs, h).value in qs
              && !Blank(First(hash, qs, h).value.text)
              && hash(First(hash, qs, h).value.text) == h
  {
    if qs != [] {
      var front, last := qs[..|qs| - 1], qs[|qs| - 1];
      FirstExists(hash, front, h);
      forall i | 0 <= i < |front| ensures front[i] == qs[i] {}
      if First(hash, front, h).Some? {
        var i :| 0 <= i < |front| && !Blank(front[i].text) && hash(front[i].text) == h;
        assert qs[i] == front[i];
      }
    }
  }

  /** The cache entry for one hash, as the first accepted query with that hash determines it. */
  ghost predicate EntryIs(c: Cache, h: nat, first: Option<Query>) {
    var key := GenerateKey(h);
    match first
    case None => key !in c.statements && key !in c.prepared
    case Some(f) =>
      && key in c.statements && c.statements[key] == Item(Print(h), f.text, f.now)
      && (key in c.prepared <==> f.ok)
      && (f.ok ==> c.prepared[key] == f.text)
  }

  ghost predicate IsKey(name: string) {
    exists h: nat :: name == GenerateKey(h)
  }

  ghost predicate OnlyKeys(c: Cache) {
    forall name :: name in c.statements || name in c.prepared ==> IsKey(name)
  }

  /** After any history, each entry of the manager and of the session is decided by the first accepted query with
      its hash: registered once, under its own text, and prepared exactly if that one prepare succeeded. */
  lemma {:induction false} CacheIsFirst(hash: string -> nat, qs: seq<Query>, h: nat)
    ensures EntryIs(Replay(hash, qs), h, First(hash, qs, h))
  {
    if qs != [] {
      var front, last := qs[..|qs| - 1], qs[|qs| - 1];
      CacheIsFirst(hash, front, h);
      if !Blank(last.text) {
        var g := hash(last.text);
        CacheIsFirst(hash, front, g);
        if GenerateKey(g) == GenerateKey(h) { GenerateKeyInjective(g, h); }
      }
    }
  }

  lemma {:induction false} CacheHasOnlyKeys(hash: string -> nat, qs: seq<Query>)
    ensures OnlyKeys(Replay(hash, qs))
  {
    if qs != [] {
      var front, last := qs[..|qs| - 1], qs[|qs| - 1];
      CacheHasOnlyKeys(hash, front);
      assert IsKey(GenerateKey(hash(last.text)));
    }
  }

  /** What Execute sends to the server after any history: the text of the first accepted query with the same hash,
      if that query could be prepared. */
  lemma ExecuteRunsFirst(hash: string -> nat, qs: seq<Query>, q: Query)
    requires !Blank(q.text)
    ensures var f := First(hash, qs + [q], hash(q.text));
            f.Some? && Execute(hash, Replay(hash, qs), q).1 ==
            if First(hash, qs, hash(q.text)).None? && !q.ok then PrepareFailed
            else if !Supported(q.args) then BadParameter
            else if !f.value.ok then NoSuchStatement(GenerateKey(hash(q.text)))
            else Ran(f.value.text, Translated(q.args))
  {
    assert (qs + [q])[..|qs|] == qs;
    CacheIsFirst(hash, qs, hash(q.text));
  }

  /** Prepared execution sends the same as direct execution exactly when the first accepted query with this hash is
      this very text and its prepare succeeded. */
  lemma RefinesDirectExactly(hash: string -> nat, qs: seq<Query>, q: Query)
    requires !Blank(q.text) && Supported(q.args)
    ensures First(hash, qs + [q], hash(q.text)).Some?
    ensures Execute(hash, Replay(hash, qs), q).1 == ExecuteNonPrepared(q) <==>
            First(hash, qs + [q], hash(q.text)).value.ok && First(hash, qs + [q], hash(q.text)).value.text == q.text
  {
    ExecuteRunsFirst(hash, qs, q);
    assert (qs + [q])[..|qs|] == qs;
    assert q.text != "";
  }

  ghost predicate InjectiveOn(hash: string -> nat, qs: seq<Query>) {
    forall i, j :: 0 <= i < |qs| && 0 <= j < |qs| && hash(qs[i].text) == hash(qs[j].text) ==> qs[i].text == qs[j].text
  }

  ghost predicate AllPrepare(qs: seq<Query>) {
    forall i :: 0 <= i < |qs| ==> qs[i].ok
  }

  /** If the hash tells the queries used on a connection apart and no prepare fails, prepared execution refines direct
      execution for every non-blank query and argument list, unsupported arguments included. */
  lemma RefinesDirect(hash: string -> nat, qs: seq<Query>, q: Query)
    requires InjectiveOn(hash, qs + [q]) && AllPrepare(qs + [q]) && !Blank(q.text)
    ensures Execute(hash, Replay(hash, qs), q).1 == ExecuteNonPrepared(q)
  {
    var all := qs + [q];
    ExecuteRunsFirst(hash, qs, q);
    FirstExists(hash, all, hash(q.text));
    var f := First(hash, all, hash(q.text)).value;
    var i :| 0 <= i < |all| && all[i] == f;
    assert all[|qs|] == q;
    assert f.ok && f.text == q.text;
    assert q.text != "";
  }

  /** A whitespace-only query is where the two differ: Execute refuses it, direct execution sends it. */
  lemma BlankDiffers(hash: string -> nat, c: Cache, q: Query)
    requires forall i :: 0 <= i < |q.text| ==> q.text[i] == ' ' || 9 <= q.text[i] as int <= 13
    ensures Execute(hash, c, q) == (c, EmptyQuery)
    ensures ExecuteNonPrepared(q) == EmptyQuery <==> q.text == ""
  {
  }

  ghost predicate Agree(c: Cache) {
    c.statements.Keys == c.prepared.Keys && forall k :: k in c.prepared ==> c.prepared[k] == c.statements[k].query
  }

  ghost predicate FirstsPrepare(hash: string -> nat, qs: seq<Query>) {
    forall h: nat :: First(hash, qs, h).Some? ==> First(hash, qs, h).value.ok
  }

  /** The manager and the session agree after a history exactly when every hash's first prepare succeeded. */
  lemma AgreeExactly(hash: string -> nat, qs: seq<Query>)
    ensures Agree(Replay(hash, qs)) <==> FirstsPrepare(hash, qs)
    ensures Replay(hash, qs).prepared.Keys <= Replay(hash, qs).statements.Keys
  {
    var c := Replay(hash, qs);
    CacheHasOnlyKeys(hash, qs);
    forall h: nat ensures EntryIs(c, h, First(hash, qs, h)) { CacheIsFirst(hash, qs, h); }
    forall name | name in c.statements || name in c.prepared
      ensures name in c.statements && (name in c.prepared ==> c.prepared[name] == c.statements[name].query)
      ensures FirstsPrepare(hash, qs) ==> name in c.prepared
    {
      assert IsKey(name);
      var h: nat :| name == GenerateKey(h);
      assert EntryIs(c, h, First(hash, qs, h));
    }
    if Agree(c) {
      forall h: nat | First(hash, qs, h).Some? ensures First(hash, qs, h).value.ok {
        assert GenerateKey(h) in c.statements.Keys;
      }
    }
    if FirstsPrepare(hash, qs) {
      assert c.statements.Keys == c.prepared.Keys;
    }
  }

  /** When every prepare succeeds, the manager and the session agree. */
  lemma AgreeWhenAllPrepare(hash: string -> nat, qs: seq<Query>)
    requires AllPrepare(qs)
    ensures Agree(Replay(hash, qs))
  {
    forall h: nat | First(hash, qs, h).Some? ensures First(hash, qs, h).value.ok {
      FirstExists(hash, qs, h);
    }
    AgreeExactly(hash, qs);
  }

  /** No name is ever sent to be prepared twice, whether or not the first attempt succeeded. */
  lemma {:induction false} NoNameSentTwice(hash: string -> nat, qs: seq<Query>)
    ensures forall i, j :: 0 <= i < j < |Sent(hash, qs)| ==> Sent(hash, qs)[i] != Sent(hash, qs)[j]
    ensures forall i :: 0 <= i < |Sent(hash, qs)| ==> Sent(hash, qs)[i] in Replay(hash, qs).statements
  {
    if qs != [] {
      NoNameSentTwice(hash, qs[..|qs| - 1]);
    }
  }

  /** A query is reported as known exactly when some accepted query of the history has the same hash. */
  lemma KnownExactly(hash: string -> nat, qs: seq<Query>, q: string)
    ensures GenerateKey(hash(q)) in Replay(hash, qs).statements <==>
            exists i :: 0 <= i < |qs| && !Blank(qs[i].text) && hash(qs[i].text) == hash(q)
  {
    CacheIsFirst(hash, qs, hash(q));
    FirstExists(hash, qs, hash(q));
  }
}
