/** Optimistic concurrency for products: clients remember the version of every product they are sent, the
    service compares versions before it writes, and every write stamps a new version.

    The service handles one request at a time.  Responses travel separately, and may be lost.
 */
module ProductProtocol {
  import opened Wrappers

  type Time = int

  type Fields = map<string, string>

  datatype Product = Product(id: string, code: string, fields: Fields, createdBy: string, createdAt: Time,
                             updatedBy: string, updatedAt: Time)

  /** A product is asked for by its internal id or by its code. */
  datatype Target = ById(id: string) | ByCode(code: string)

  datatype Changes = Changes(code: Option<string>, fields: Fields)

  datatype Error = NotFound | Conflict | Invalid | DuplicateCode

  datatype Outcome = Accepted(product: Product) | Rejected(error: Error)

  type Store = map<string, Product>

  /** The names of the fields there are, and how a value given for a field, a code or an actor is cleaned, if it
      is not refused. */
  datatype Rules = Rules(
    names: set<string>,
    field: (string, string) -> Option<string>,
    code: string -> Option<string>,
    actor: string -> Option<string>)

  // ----- the server -----

  function Cleaned(rules: Rules, fields: Fields): Option<Fields> {
    if fields.Keys != rules.names || exists f :: f in fields && rules.field(f, fields[f]).None? then None
    else Some(map f | f in fields :: rules.field(f, fields[f]).value)
  }

  /** Product.create: every field is given, with its default if need be. */
  function Created(id: string, code: string, fields: Fields, actor: string, rules: Rules, now: Time): Option<Product> {
    if Cleaned(rules, fields).None? || rules.code(code).None? || rules.actor(actor).None? then None
    else
      var writer := rules.actor(actor).value;
      Some(Product(id, rules.code(code).value, Cleaned(rules, fields).value, writer, now, writer, now))
  }

  /** Product.update: every field is cleaned again, the changed ones with their new values, under a new stamp. */
  function Updated(p: Product, actor: string, changes: Changes, rules: Rules, now: Time): Option<Product> {
    var code := rules.code(if changes.code.Some? then changes.code.value else p.code);
    var fields := Cleaned(rules, p.fields + changes.fields);
    if !(changes.fields.Keys <= rules.names) || code.None? || fields.None? || rules.actor(actor).None? then None
    else Some(p.(code := code.value, fields := fields.value, updatedBy := rules.actor(actor).value, updatedAt := now))
  }

  ghost predicate CodeTaken(store: Store, code: string, id: string) {
    exists other :: other in store && other != id && store[other].code == code
  }

  ghost function Find(store: Store, target: Target): Option<Product> {
    match target
    case ById(id) => if id in store then Some(store[id]) else None
    case ByCode(code) =>
      if exists id :: id in store && store[id].code == code then
        var id :| id in store && store[id].code == code;
        Some(store[id])
      else None
  }

  /** ProductService.update_product: look up, compare versions, validate, write. */
  ghost function UpdateProduct(store: Store, target: Target, actor: string, expected: Option<Time>, changes: Changes,
                               rules: Rules, now: Time): Outcome {
    match Find(store, target)
    case None => Rejected(NotFound)
    case Some(current) =>
      if expected.Some? && current.updatedAt != expected.value then Rejected(Conflict)
      else
        match Updated(current, actor, changes, rules, now)
        case None => Rejected(Invalid)
        case Some(p) => if CodeTaken(store, p.code, p.id) then Rejected(DuplicateCode) else Accepted(p)
  }

  // ----- a client -----

  type Versions = map<string, Time>

  function RememberAll(versions: Versions, items: seq<Product>): Versions {
    if items == [] then versions
    else RememberAll(versions, items[..|items| - 1])[items[|items| - 1].id := items[|items| - 1].updatedAt]
  }

  /** The version an update is sent with: the caller's, or the one remembered under the identifier. */
  function VersionFor(versions: Versions, target: Target, explicit: Option<Time>): Option<Time> {
    if explicit.Some? then explicit
    else if target.ById? && target.id in versions then Some(versions[target.id])
    else None
  }

  class ProductApiClient {
    var versions: Versions

    constructor ()
      ensures versions == map[]
    {
      versions := map[];
    }

    method Remember(product: Product) returns (same: Product)
      modifies this`versions
      ensures versions == RememberAll(old(versions), [product]) && same == product
    {
      versions := versions[product.id := product.updatedAt];
      assert [product][..0] == [];
      return product;
    }

    /** list_products remembers every listed product, in order. */
    method ListProducts(result: seq<Product>) returns (items: seq<Product>)
      modifies this`versions
      ensures versions == RememberAll(old(versions), result) && items == result
    {
      items := [];
      for i := 0 to |result|
        invariant items == result[..i]
        invariant versions == RememberAll(old(versions), result[..i])
      {
        var product := Remember(result[i]);
        assert result[..i + 1][..i] == result[..i] && [result[i]][..0] == [];
        items := items + [product];
      }
      assert result[..|result|] == result;
    }

    /** update_product refuses to send an update without a version. */
    method UpdateVersion(target: Target, explicit: Option<Time>) returns (version: Option<Time>)
      ensures version == VersionFor(versions, target, explicit)
    {
      version := explicit;
      if version.None? && target.ById? && target.id in versions {
        version := Some(versions[target.id]);
      }
    }
  }

  // ----- clients and server together -----

  /** What a request asked for: a creation gives everything, an update what it changes. */
  datatype Asked = Asked(code: Option<string>, fields: Fields, actor: string, now: Time)

  /** One accepted write: what the writing client had been sent for the product, if it wrote with the
      version it remembered, what was overwritten, what replaced it, and what had been asked for. */
  datatype Write = Write(remembered: Option<Product>, before: Option<Product>, after: Product, asked: Asked)

  /** received and log are history: what each client was last sent per product, and the accepted writes. */
  datatype System = System(
    store: Store,
    versions: map<nat, Versions>,
    wire: map<nat, seq<Product>>,
    received: map<nat, map<string, Product>>,
    log: Log,
    clock: Time)

  datatype Step =
    | Create(client: nat, id: string, code: string, fields: Fields, actor: string, now: Time)
    | Read(client: nat, target: Target)
    | List(client: nat, ids: seq<string>)
    | Update(client: nat, target: Target, explicit: Option<Time>, actor: string, changes: Changes, now: Time)
    | Deliver(client: nat)
    | Lose(client: nat)

  function VersionsOf(s: System, c: nat): Versions {
    if c in s.versions then s.versions[c] else map[]
  }

  function ReceivedBy(s: System, c: nat): map<string, Product> {
    if c in s.received then s.received[c] else map[]
  }

  type Log = map<string, seq<Write>>

  function LogOf(log: Log, id: string): seq<Write> {
    if id in log then log[id] else []
  }

  function ReceiveAll(received: map<string, Product>, items: seq<Product>): map<string, Product> {
    if items == [] then received
    else ReceiveAll(received, items[..|items| - 1])[items[|items| - 1].id := items[|items| - 1]]
  }

  function Respond(s: System, c: nat, items: seq<Product>): System {
    s.(wire := s.wire[c := items])
  }

  function Record(s: System, w: Write): System {
    s.(store := s.store[w.after.id := w.after],
       log := s.log[w.after.id := LogOf(s.log, w.after.id) + [w]],
       clock := w.after.updatedAt)
  }

  function Listed(store: Store, ids: seq<string>): seq<Product> {
    if ids == [] then [] else (if ids[0] in store then [store[ids[0]]] else []) + Listed(store, ids[1..])
  }

  /** What a client had been sent, when it relies on its memory for this update. */
  function Basis(s: System, step: Step): Option<Product>
    requires step.Update?
  {
    if step.explicit.None? && step.target.ById? && step.target.id in ReceivedBy(s, step.client) then
      Some(ReceivedBy(s, step.client)[step.target.id])
    else None
  }

  function AskedOf(step: Step): Asked
    requires step.Create? || step.Update?
  {
    match step
    case Create(_, _, code, fields, actor, now) => Asked(Some(code), fields, actor, now)
    case Update(_, _, _, actor, changes, now) => Asked(changes.code, changes.fields, actor, now)
  }

  ghost function DoCreate(s: System, step: Step, rules: Rules): System
    requires step.Create?
  {
    match Created(step.id, step.code, step.fields, step.actor, rules, step.now)
    case None => Respond(s, step.client, [])
    case Some(p) =>
      if p.id in s.store || CodeTaken(s.store, p.code, p.id) then Respond(s, step.client, [])
      else Respond(Record(s, Write(None, None, p, AskedOf(step))), step.client, [p])
  }

  ghost function DoRead(s: System, c: nat, target: Target): System {
    match Find(s.store, target)
    case None => Respond(s, c, [])
    case Some(p) => Respond(s, c, [p])
  }

  ghost function OutcomeOf(s: System, step: Step, rules: Rules): Outcome
    requires step.Update?
  {
    UpdateProduct(s.store, step.target, step.actor, VersionFor(VersionsOf(s, step.client), step.target, step.explicit),
                  step.changes, rules, step.now)
  }

  ghost function DoUpdate(s: System, step: Step, rules: Rules): System
    requires step.Update?
  {
    if VersionFor(VersionsOf(s, step.client), step.target, step.explicit).None? then s
    else
      match OutcomeOf(s, step, rules)
      case Rejected(_) => Respond(s, step.client, [])
      case Accepted(p) =>
        Respond(Record(s, Write(Basis(s, step), Find(s.store, step.target), p, AskedOf(step))), step.client, [p])
  }

  function DoDeliver(s: System, c: nat): System {
    if c !in s.wire then s
    else
      s.(versions := s.versions[c := RememberAll(VersionsOf(s, c), s.wire[c])],
         received := s.received[c := ReceiveAll(ReceivedBy(s, c), s.wire[c])],
         wire := s.wire - {c})
  }

  ghost function Next(s: System, step: Step, rules: Rules): System {
    match step
    case Create(_, _, _, _, _, _) => DoCreate(s, step, rules)
    case Read(c, target) => DoRead(s, c, target)
    case List(c, ids) => Respond(s, c, Listed(s.store, ids))
    case Update(_, _, _, _, _, _) => DoUpdate(s, step, rules)
    case Deliver(c) => DoDeliver(s, c)
    case Lose(c) => s.(wire := s.wire - {c})
  }

  /** The server's clock strictly advances from one write to the next. */
  predicate Advances(s: System, step: Step) {
    match step
    case Create(_, _, _, _, _, now) => now > s.clock
    case Update(_, _, _, _, _, now) => now > s.clock
    case _ => true
  }

  const START := System(map[], map[], map[], map[], map[], 0)

  ghost predicate Reachable(s: System, steps: seq<Step>, rules: Rules)
    decreases |steps|
  {
    if steps == [] then s == START
    else
      var front := steps[..|steps| - 1];
      exists r :: Reachable(r, front, rules) && Advances(r, steps[|steps| - 1])
        && s == Next(r, steps[|steps| - 1], rules)
  }

  // ----- the invariant -----

  /** The accepted writes of a product are one unbroken chain: each overwrites exactly what the one before
      it wrote, under a strictly later version; and whoever wrote from memory had been sent exactly what
      it overwrote. */
  ghost predicate Chain(writes: seq<Write>, id: string) {
    forall i :: 0 <= i < |writes| ==> Link(writes, i, id)
  }

  predicate Link(writes: seq<Write>, i: nat, id: string)
    requires i < |writes|
  {
    && writes[i].after.id == id
    && writes[i].before == (if i == 0 then None else Some(writes[i - 1].after))
    && (i > 0 ==> writes[i - 1].after.updatedAt < writes[i].after.updatedAt)
    && (writes[i].remembered.Some? ==> writes[i].remembered == writes[i].before)
  }

  /** The product is one of the versions the server has written. */
  ghost predicate Written(log: Log, p: Product) {
    exists i :: 0 <= i < |LogOf(log, p.id)| && LogOf(log, p.id)[i].after == p
  }

  ghost predicate StoreIsNewest(s: System) {
    forall id :: id in s.store ==>
      && LogOf(s.log, id) != [] && LogOf(s.log, id)[|LogOf(s.log, id)| - 1].after == s.store[id]
      && s.store[id].updatedAt <= s.clock
  }

  ghost predicate LogsAreChains(s: System) {
    forall id :: Chain(LogOf(s.log, id), id) && (id !in s.store ==> LogOf(s.log, id) == [])
  }

  ghost predicate AllWritten(log: Log, items: seq<Product>) {
    forall i :: 0 <= i < |items| ==> Written(log, items[i])
  }

  ghost predicate ReceivedWritten(log: Log, received: map<string, Product>) {
    forall id :: id in received ==> received[id].id == id && Written(log, received[id])
  }

  ghost predicate WireWritten(log: Log, wire: map<nat, seq<Product>>) {
    forall c :: c in wire ==> AllWritten(log, wire[c])
  }

  ghost predicate ClientsWritten(log: Log, received: map<nat, map<string, Product>>) {
    forall c :: c in received ==> ReceivedWritten(log, received[c])
  }

  ghost predicate Synced(versions: Versions, received: map<string, Product>) {
    versions.Keys == received.Keys && forall id :: id in versions ==> versions[id] == received[id].updatedAt
  }

  /** A client remembers exactly the versions of what it was last sent. */
  ghost predicate MemoryIsReceived(versions: map<nat, Versions>, received: map<nat, map<string, Product>>) {
    versions.Keys == received.Keys && forall c :: c in versions ==> Synced(versions[c], received[c])
  }

  ghost predicate Inv(s: System) {
    && StoreIsNewest(s) && LogsAreChains(s)
    && WireWritten(s.log, s.wire) && ClientsWritten(s.log, s.received)
    && MemoryIsReceived(s.versions, s.received)
  }

  lemma {:induction false} LaterIsNewer(writes: seq<Write>, id: string, i: nat, j: nat)
    requires Chain(writes, id) && i < j < |writes|
    ensures writes[i].after.updatedAt < writes[j].after.updatedAt
    decreases j
  {
    assert Link(writes, j, id);
    if i < j - 1 { LaterIsNewer(writes, id, i, j - 1); }
  }

  /** Versions are never reused: a version identifies what was written under it. */
  lemma SameVersionSameProduct(s: System, p: Product, q: Product)
    requires LogsAreChains(s) && Written(s.log, p) && Written(s.log, q) && p.id == q.id && p.updatedAt == q.updatedAt
    ensures p == q
  {
    var writes := LogOf(s.log, p.id);
    var i: nat :| i < |writes| && writes[i].after == p;
    var j: nat :| j < |writes| && writes[j].after == q;
    if i < j { LaterIsNewer(writes, p.id, i, j); } else if j < i { LaterIsNewer(writes, p.id, j, i); }
  }

  lemma StoredIsWritten(s: System, id: string)
    requires StoreIsNewest(s) && LogsAreChains(s) && id in s.store
    ensures s.store[id].id == id && Written(s.log, s.store[id])
  {
    var writes := LogOf(s.log, id);
    assert Link(writes, |writes| - 1, id);
    assert writes[|writes| - 1].after == s.store[id];
  }

  /** An accepted update sent from memory overwrites exactly the product its client was last sent. */
  lemma AcceptedOverwritesWhatWasSeen(s: System, step: Step, rules: Rules)
    requires Inv(s) && step.Update? && step.explicit.None?
    requires VersionFor(VersionsOf(s, step.client), step.target, None).Some? && OutcomeOf(s, step, rules).Accepted?
    ensures step.target.ById? && step.target.id in s.store && step.target.id in ReceivedBy(s, step.client)
    ensures ReceivedBy(s, step.client)[step.target.id] == s.store[step.target.id]
  {
    var id := step.target.id;
    StoredIsWritten(s, id);
    SameVersionSameProduct(s, ReceivedBy(s, step.client)[id], s.store[id]);
  }

  lemma ChainAppend(writes: seq<Write>, w: Write, id: string)
    requires Chain(writes, id) && w.after.id == id
    requires w.before == (if writes == [] then None else Some(writes[|writes| - 1].after))
    requires writes != [] ==> writes[|writes| - 1].after.updatedAt < w.after.updatedAt
    requires w.remembered.Some? ==> w.remembered == w.before
    ensures Chain(writes + [w], id)
  {
    var longer := writes + [w];
    forall i | 0 <= i < |longer| ensures Link(longer, i, id) {
      if i < |writes| {
        assert Link(writes, i, id);
        assert longer[i] == writes[i] && (i > 0 ==> longer[i - 1] == writes[i - 1]);
      }
    }
  }

  lemma LogAppend(log: Log, w: Write)
    ensures var log' := log[w.after.id := LogOf(log, w.after.id) + [w]];
            && Written(log', w.after)
            && (forall id :: LogOf(log', id) == if id == w.after.id then LogOf(log, id) + [w] else LogOf(log, id))
            && (forall p :: Written(log, p) ==> Written(log', p))
  {
    var writes := LogOf(log, w.after.id);
    var log' := log[w.after.id := writes + [w]];
    assert LogOf(log', w.after.id)[|writes|].after == w.after;
    forall p | Written(log, p) ensures Written(log', p) {
      var i :| 0 <= i < |LogOf(log, p.id)| && LogOf(log, p.id)[i].after == p;
      assert LogOf(log', p.id)[i].after == p;
    }
  }

  lemma NewestStays(s: System, w: Write)
    requires StoreIsNewest(s) && w.after.updatedAt > s.clock
    ensures StoreIsNewest(Record(s, w))
  {
    var t := Record(s, w);
    LogAppend(s.log, w);
    forall id | id in t.store
      ensures LogOf(t.log, id) != [] && LogOf(t.log, id)[|LogOf(t.log, id)| - 1].after == t.store[id]
        && t.store[id].updatedAt <= t.clock
    {
      if id != w.after.id { assert id in s.store; }
    }
  }

  lemma ChainsStay(s: System, w: Write)
    requires LogsAreChains(s) && Chain(LogOf(s.log, w.after.id) + [w], w.after.id)
    ensures LogsAreChains(Record(s, w))
  {
    LogAppend(s.log, w);
  }

  lemma SentStayWritten(s: System, w: Write)
    requires WireWritten(s.log, s.wire) && ClientsWritten(s.log, s.received)
    ensures WireWritten(Record(s, w).log, s.wire) && ClientsWritten(Record(s, w).log, s.received)
  {
    LogAppend(s.log, w);
  }

  /** Appending a write that overwrites the stored product under a later version. */
  lemma RecordKeepsInv(s: System, w: Write)
    requires Inv(s) && w.after.updatedAt > s.clock
    requires w.before == (if w.after.id in s.store then Some(s.store[w.after.id]) else None)
    requires w.remembered.Some? ==> w.remembered == w.before
    ensures Inv(Record(s, w)) && Written(Record(s, w).log, w.after)
  {
    LogAppend(s.log, w);
    ChainAppend(LogOf(s.log, w.after.id), w, w.after.id);
    NewestStays(s, w);
    ChainsStay(s, w);
    SentStayWritten(s, w);
  }

  lemma RespondKeepsInv(s: System, c: nat, items: seq<Product>)
    requires Inv(s) && AllWritten(s.log, items)
    ensures Inv(Respond(s, c, items))
  {
  }

  lemma {:induction false} RememberWhatIsReceived(versions: Versions, received: map<string, Product>,
                                                  items: seq<Product>)
    requires Synced(versions, received)
    ensures Synced(RememberAll(versions, items), ReceiveAll(received, items))
    decreases |items|
  {
    if items != [] { RememberWhatIsReceived(versions, received, items[..|items| - 1]); }
  }

  lemma {:induction false} ReceivedWereSent(log: Log, received: map<string, Product>, items: seq<Product>)
    requires ReceivedWritten(log, received) && AllWritten(log, items)
    ensures ReceivedWritten(log, ReceiveAll(received, items))
    decreases |items|
  {
    if items != [] { ReceivedWereSent(log, received, items[..|items| - 1]); }
  }

  lemma DeliverKeepsInv(s: System, c: nat)
    requires Inv(s)
    ensures Inv(DoDeliver(s, c))
  {
    if c in s.wire {
      RememberWhatIsReceived(VersionsOf(s, c), ReceivedBy(s, c), s.wire[c]);
      ReceivedWereSent(s.log, ReceivedBy(s, c), s.wire[c]);
      StoreReceived(s, c, RememberAll(VersionsOf(s, c), s.wire[c]), ReceiveAll(ReceivedBy(s, c), s.wire[c]));
    }
  }

  lemma StoreReceived(s: System, c: nat, versions: Versions, received: map<string, Product>)
    requires Inv(s) && Synced(versions, received) && ReceivedWritten(s.log, received)
    ensures Inv(s.(versions := s.versions[c := versions], received := s.received[c := received], wire := s.wire - {c}))
  {
    var all, clients := s.versions[c := versions], s.received[c := received];
    assert MemoryIsReceived(all, clients) by {
      forall d | d in all ensures Synced(all[d], clients[d]) {
        if d != c { assert Synced(s.versions[d], s.received[d]); }
      }
    }
    assert ClientsWritten(s.log, clients) by {
      forall d | d in clients ensures ReceivedWritten(s.log, clients[d]) {
        if d != c { assert ReceivedWritten(s.log, s.received[d]); }
      }
    }
    assert WireWritten(s.log, s.wire - {c});
  }

  lemma LoseKeepsInv(s: System, c: nat)
    requires Inv(s)
    ensures Inv(s.(wire := s.wire - {c}))
  {
  }

  lemma FoundIsWritten(s: System, target: Target)
    requires Inv(s) && Find(s.store, target).Some?
    ensures var p := Find(s.store, target).value; Written(s.log, p) && p.id in s.store && s.store[p.id] == p
  {
    match target
    case ById(id) => StoredIsWritten(s, id);
    case ByCode(code) =>
      var id :| id in s.store && s.store[id].code == code && Find(s.store, target) == Some(s.store[id]);
      StoredIsWritten(s, id);
  }

  lemma {:induction false} ListedWereWritten(s: System, ids: seq<string>)
    requires Inv(s)
    ensures AllWritten(s.log, Listed(s.store, ids))
    decreases |ids|
  {
    if ids != [] {
      ListedWereWritten(s, ids[1..]);
      if ids[0] in s.store { StoredIsWritten(s, ids[0]); }
    }
  }

  lemma UpdateKeepsInv(s: System, step: Step, rules: Rules)
    requires Inv(s) && step.Update? && Advances(s, step)
    ensures Inv(DoUpdate(s, step, rules))
  {
    if VersionFor(VersionsOf(s, step.client), step.target, step.explicit).Some? {
      match OutcomeOf(s, step, rules)
      case Accepted(p) =>
        FoundIsWritten(s, step.target);
        if Basis(s, step).Some? { AcceptedOverwritesWhatWasSeen(s, step, rules); }
        var w := Write(Basis(s, step), Find(s.store, step.target), p, AskedOf(step));
        RecordKeepsInv(s, w);
        RespondKeepsInv(Record(s, w), step.client, [p]);
      case Rejected(_) =>
        RespondKeepsInv(s, step.client, []);
    }
  }

  lemma StepKeepsInv(s: System, step: Step, rules: Rules)
    requires Inv(s) && Advances(s, step)
    ensures Inv(Next(s, step, rules))
  {
    match step
    case Create(c, id, code, fields, actor, now) =>
      var made := Created(id, code, fields, actor, rules, now);
      if made.None? || id in s.store || CodeTaken(s.store, made.value.code, id) {
        RespondKeepsInv(s, c, []);
      } else {
        var w := Write(None, None, made.value, AskedOf(step));
        RecordKeepsInv(s, w);
        RespondKeepsInv(Record(s, w), c, [made.value]);
      }
    case Read(c, target) =>
      if Find(s.store, target).Some? {
        FoundIsWritten(s, target);
        RespondKeepsInv(s, c, [Find(s.store, target).value]);
      } else {
        RespondKeepsInv(s, c, []);
      }
    case List(c, ids) =>
      ListedWereWritten(s, ids);
      RespondKeepsInv(s, c, Listed(s.store, ids));
    case Update(_, _, _, _, _, _) => UpdateKeepsInv(s, step, rules);
    case Deliver(c) => DeliverKeepsInv(s, c);
    case Lose(c) => LoseKeepsInv(s, c);
  }

  /** In every interleaving of any number of clients, lost responses included, the accepted writes of every
      product form one unbroken chain that ends in the stored product. */
  lemma {:induction false} WritesFormOneChain(s: System, steps: seq<Step>, rules: Rules)
    requires Reachable(s, steps, rules)
    ensures Inv(s)
    ensures forall id :: Chain(LogOf(s.log, id), id)
    ensures forall id ::
      id in s.store ==>
        LogOf(s.log, id) != [] && LogOf(s.log, id)[|LogOf(s.log, id)| - 1].after == s.store[id]
    decreases |steps|
  {
    if steps != [] {
      var front := steps[..|steps| - 1];
      var r :| Reachable(r, front, rules) && Advances(r, steps[|steps| - 1]) && s == Next(r, steps[|steps| - 1], rules);
      WritesFormOneChain(r, front, rules);
      StepKeepsInv(r, steps[|steps| - 1], rules);
    }
  }

  /** The advancing clock is needed: after an accepted update, a second one that was prepared from the same
      version is refused exactly when the first was stamped with a new time. */
  lemma StaleIsRefusedIffStamped(store: Store, id: string, actor: string, actor': string, changes: Changes,
                                 changes': Changes, rules: Rules, now: Time, now': Time)
    requires id in store && store[id].id == id
    requires UpdateProduct(store, ById(id), actor, Some(store[id].updatedAt), changes, rules, now).Accepted?
    ensures var first := UpdateProduct(store, ById(id), actor, Some(store[id].updatedAt), changes, rules, now).product;
            UpdateProduct(store[id := first], ById(id), actor', Some(store[id].updatedAt), changes', rules, now')
              == Rejected(Conflict)
            <==> now != store[id].updatedAt
  {
  }

  // ----- nothing that was asked for is lost -----

  /** Cleaning a clean value changes nothing. */
  ghost predicate Settles(rules: Rules) {
    && (forall f, v, w :: rules.field(f, v) == Some(w) ==> rules.field(f, w) == Some(w))
    && (forall v, w :: rules.code(v) == Some(w) ==> rules.code(w) == Some(w))
  }

  /** The value that the last write asking for the field asked for. */
  function LastAsked(writes: seq<Write>, f: string): Option<string> {
    if writes == [] then None
    else if f in writes[|writes| - 1].asked.fields then Some(writes[|writes| - 1].asked.fields[f])
    else LastAsked(writes[..|writes| - 1], f)
  }

  function LastCode(writes: seq<Write>): Option<string> {
    if writes == [] then None
    else if writes[|writes| - 1].asked.code.Some? then writes[|writes| - 1].asked.code
    else LastCode(writes[..|writes| - 1])
  }

  /** The cleaned form of what was asked for. */
  predicate IsCleaned(asked: Option<string>, clean: string -> Option<string>, value: string) {
    asked.Some? && clean(asked.value) == Some(value)
  }

  function FieldRule(rules: Rules, f: string): string -> Option<string> {
    v => rules.field(f, v)
  }

  /** The product is told by the writes: each field and the code are what was last asked for them, cleaned; the last
      writer and the first have left their names and times. */
  ghost predicate IsToldBy(p: Product, writes: seq<Write>, rules: Rules) {
    && writes != [] && p.fields.Keys == rules.names
    && (forall f :: f in rules.names ==> IsCleaned(LastAsked(writes, f), FieldRule(rules, f), p.fields[f]))
    && IsCleaned(LastCode(writes), rules.code, p.code)
    && IsCleaned(Some(writes[|writes| - 1].asked.actor), rules.actor, p.updatedBy)
    && IsCleaned(Some(writes[0].asked.actor), rules.actor, p.createdBy)
    && p.updatedAt == writes[|writes| - 1].asked.now && p.createdAt == writes[0].asked.now
  }

  /** Every version that was ever stored is told by the writes up to it. */
  ghost predicate AllTold(log: Log, rules: Rules) {
    forall id, k :: 0 <= k < |LogOf(log, id)| ==> IsToldBy(LogOf(log, id)[k].after, LogOf(log, id)[..k + 1], rules)
  }

  lemma CreationIsTold(step: Step, p: Product, w: Write, rules: Rules)
    requires step.Create? && Created(step.id, step.code, step.fields, step.actor, rules, step.now) == Some(p)
    requires w.after == p && w.asked == AskedOf(step)
    ensures IsToldBy(p, [w], rules)
  {
    forall f | f in rules.names ensures IsCleaned(LastAsked([w], f), FieldRule(rules, f), p.fields[f]) {
      assert f in step.fields && f in w.asked.fields;
    }
  }

  lemma FieldIsTold(step: Step, writes: seq<Write>, p: Product, q: Product, w: Write, longer: seq<Write>, f: string,
                    rules: Rules)
    requires step.Update? && Settles(rules) && p.fields.Keys == rules.names && f in rules.names
    requires IsCleaned(LastAsked(writes, f), FieldRule(rules, f), p.fields[f])
    requires Updated(p, step.actor, step.changes, rules, step.now) == Some(q)
    requires w.asked == AskedOf(step) && longer != [] && longer[..|longer| - 1] == writes && longer[|longer| - 1] == w
    ensures f in q.fields && IsCleaned(LastAsked(longer, f), FieldRule(rules, f), q.fields[f])
  {
    assert f in p.fields + step.changes.fields;
  }

  lemma UpdateIsTold(step: Step, writes: seq<Write>, p: Product, q: Product, w: Write, rules: Rules)
    requires step.Update? && Settles(rules) && IsToldBy(p, writes, rules)
    requires Updated(p, step.actor, step.changes, rules, step.now) == Some(q)
    requires w.after == q && w.asked == AskedOf(step)
    ensures IsToldBy(q, writes + [w], rules)
  {
    var longer := writes + [w];
    assert longer[..|longer| - 1] == writes && longer[|longer| - 1] == w && longer[0] == writes[0];
    forall f | f in rules.names ensures IsCleaned(LastAsked(longer, f), FieldRule(rules, f), q.fields[f]) {
      FieldIsTold(step, writes, p, q, w, longer, f, rules);
    }
  }

  lemma ToldMore(log: Log, w: Write, rules: Rules)
    requires AllTold(log, rules) && IsToldBy(w.after, LogOf(log, w.after.id) + [w], rules)
    ensures AllTold(log[w.after.id := LogOf(log, w.after.id) + [w]], rules)
  {
    var writes := LogOf(log, w.after.id);
    var log' := log[w.after.id := writes + [w]];
    forall id, k | 0 <= k < |LogOf(log', id)|
      ensures IsToldBy(LogOf(log', id)[k].after, LogOf(log', id)[..k + 1], rules)
    {
      if id == w.after.id && k == |writes| {
        assert (writes + [w])[..k + 1] == writes + [w];
      } else {
        assert LogOf(log', id)[..k + 1] == LogOf(log, id)[..k + 1] && LogOf(log', id)[k] == LogOf(log, id)[k];
        assert IsToldBy(LogOf(log, id)[k].after, LogOf(log, id)[..k + 1], rules);
      }
    }
  }

  lemma StoredIsTold(s: System, id: string, rules: Rules)
    requires Inv(s) && AllTold(s.log, rules) && id in s.store
    ensures IsToldBy(s.store[id], LogOf(s.log, id), rules)
  {
    var writes := LogOf(s.log, id);
    assert writes[..|writes| - 1 + 1] == writes;
    assert IsToldBy(writes[|writes| - 1].after, writes[..|writes| - 1 + 1], rules);
  }

  /** An accepted update is logged with what it asked for behind the writes before it, is stored, and is what the
      client is answered with; the logs of other products stay as they are. */
  lemma AcceptedIsLogged(s: System, step: Step, rules: Rules)
    requires Inv(s) && step.Update? && OutcomeOf(s, step, rules).Accepted?
    requires VersionFor(VersionsOf(s, step.client), step.target, step.explicit).Some?
    ensures var p := OutcomeOf(s, step, rules).product; var t := Next(s, step, rules);
            && p.id in s.store && p.id in t.store && t.store == s.store[p.id := p]
            && step.client in t.wire && t.wire[step.client] == [p]
            && |LogOf(t.log, p.id)| == |LogOf(s.log, p.id)| + 1
            && LogOf(t.log, p.id)[..|LogOf(s.log, p.id)|] == LogOf(s.log, p.id)
            && LogOf(t.log, p.id)[|LogOf(s.log, p.id)|].asked == AskedOf(step)
            && LogOf(t.log, p.id)[|LogOf(s.log, p.id)|].after == p
            && forall id :: id != p.id ==> LogOf(t.log, id) == LogOf(s.log, id)
  {
    FoundIsWritten(s, step.target);
  }

  lemma AcceptedIsUpdated(s: System, step: Step, rules: Rules)
    requires Inv(s) && step.Update? && OutcomeOf(s, step, rules).Accepted?
    ensures Find(s.store, step.target).Some?
    ensures var p := Find(s.store, step.target).value; var q := OutcomeOf(s, step, rules).product;
            && p.id in s.store && s.store[p.id] == p && q.id == p.id
            && Updated(p, step.actor, step.changes, rules, step.now) == Some(q)
  {
    FoundIsWritten(s, step.target);
  }

  lemma UpdateIsToldInLog(s: System, step: Step, p: Product, q: Product, w: Write, rules: Rules)
    requires Inv(s) && AllTold(s.log, rules) && Settles(rules) && step.Update?
    requires p.id in s.store && s.store[p.id] == p && q.id == p.id
    requires Updated(p, step.actor, step.changes, rules, step.now) == Some(q)
    requires w.after == q && w.asked == AskedOf(step)
    ensures AllTold(s.log[q.id := LogOf(s.log, q.id) + [w]], rules)
  {
    StoredIsTold(s, p.id, rules);
    UpdateIsTold(step, LogOf(s.log, p.id), p, q, w, rules);
    ToldMore(s.log, w, rules);
  }

  lemma UpdateKeepsTold(s: System, step: Step, rules: Rules)
    requires Inv(s) && AllTold(s.log, rules) && Settles(rules) && step.Update?
    ensures AllTold(DoUpdate(s, step, rules).log, rules)
  {
    if VersionFor(VersionsOf(s, step.client), step.target, step.explicit).Some? && OutcomeOf(s, step, rules).Accepted? {
      AcceptedIsUpdated(s, step, rules);
      var p, q := Find(s.store, step.target).value, OutcomeOf(s, step, rules).product;
      var w := Write(Basis(s, step), Some(p), q, AskedOf(step));
      UpdateIsToldInLog(s, step, p, q, w, rules);
      assert DoUpdate(s, step, rules).log == Record(s, w).log;
    }
  }

  lemma CreateKeepsTold(s: System, step: Step, rules: Rules)
    requires Inv(s) && AllTold(s.log, rules) && step.Create?
    ensures AllTold(DoCreate(s, step, rules).log, rules)
  {
    var made := Created(step.id, step.code, step.fields, step.actor, rules, step.now);
    if made.Some? && step.id !in s.store && !CodeTaken(s.store, made.value.code, step.id) {
      var w := Write(None, None, made.value, AskedOf(step));
      CreationIsTold(step, made.value, w, rules);
      assert LogOf(s.log, step.id) == [] && [] + [w] == [w];
      ToldMore(s.log, w, rules);
    }
  }

  /** In every interleaving nothing that an accepted write asked for is lost: every stored product, and every version
      of it before, is told by the writes that led to it. */
  lemma {:induction false} NothingAskedIsLost(s: System, steps: seq<Step>, rules: Rules)
    requires Reachable(s, steps, rules) && Settles(rules)
    ensures AllTold(s.log, rules)
    ensures forall id :: id in s.store ==> s.store[id].id == id && IsToldBy(s.store[id], LogOf(s.log, id), rules)
    decreases |steps|
  {
    WritesFormOneChain(s, steps, rules);
    if steps != [] {
      var front, last := steps[..|steps| - 1], steps[|steps| - 1];
      var r :| Reachable(r, front, rules) && Advances(r, last) && s == Next(r, last, rules);
      WritesFormOneChain(r, front, rules);
      NothingAskedIsLost(r, front, rules);
      StepKeepsTold(r, last, rules);
    }
    StoredAreTold(s, rules);
  }

  lemma StepKeepsTold(s: System, step: Step, rules: Rules)
    requires Inv(s) && AllTold(s.log, rules) && Settles(rules)
    ensures AllTold(Next(s, step, rules).log, rules)
  {
    match step
    case Create(_, _, _, _, _, _) => CreateKeepsTold(s, step, rules);
    case Update(_, _, _, _, _, _) => UpdateKeepsTold(s, step, rules);
    case _ =>
  }

  lemma StoredAreTold(s: System, rules: Rules)
    requires Inv(s) && AllTold(s.log, rules)
    ensures forall id :: id in s.store ==> s.store[id].id == id && IsToldBy(s.store[id], LogOf(s.log, id), rules)
  {
    forall id | id in s.store ensures s.store[id].id == id && IsToldBy(s.store[id], LogOf(s.log, id), rules) {
      StoredIsTold(s, id, rules);
      StoredIsWritten(s, id);
    }
  }

  // ----- when an update is accepted, and what clients are answered -----

  /** Everything the update asks for, and everything it leaves as it is, can be cleaned. */
  predicate IsClean(p: Product, actor: string, changes: Changes, rules: Rules) {
    && changes.fields.Keys <= rules.names && p.fields.Keys == rules.names && rules.actor(actor).Some?
    && rules.code(if changes.code.Some? then changes.code.value else p.code).Some?
    && forall f :: f in rules.names ==>
         rules.field(f, if f in changes.fields then changes.fields[f] else p.fields[f]).Some?
  }

  lemma CleanedIff(rules: Rules, fields: Fields)
    ensures Cleaned(rules, fields).Some?
      <==> fields.Keys == rules.names && forall f :: f in rules.names && f in fields ==> rules.field(f, fields[f]).Some?
  {
  }

  lemma UpdatedIff(p: Product, actor: string, changes: Changes, rules: Rules, now: Time)
    ensures Updated(p, actor, changes, rules, now).Some? && p.fields.Keys == rules.names
      <==> IsClean(p, actor, changes, rules)
    ensures Updated(p, actor, changes, rules, now).Some? ==>
      && Updated(p, actor, changes, rules, now).value.id == p.id
      && Some(Updated(p, actor, changes, rules, now).value.code)
         == rules.code(if changes.code.Some? then changes.code.value else p.code)
  {
    var asked := p.fields + changes.fields;
    CleanedIff(rules, asked);
    if changes.fields.Keys <= rules.names && p.fields.Keys == rules.names {
      assert asked.Keys == rules.names;
    }
    assert forall f :: f in asked && (f in changes.fields || f in p.fields) ==>
      asked[f] == if f in changes.fields then changes.fields[f] else p.fields[f];
  }

  /** An update of a product with all its fields is accepted exactly when the version given is the present one,
      everything is clean, and no other product has the code. */
  lemma UpdateAcceptedIff(store: Store, target: Target, actor: string, expected: Option<Time>, changes: Changes,
                          rules: Rules, now: Time)
    requires Find(store, target).Some? && Find(store, target).value.fields.Keys == rules.names
    ensures var p := Find(store, target).value;
            var code := rules.code(if changes.code.Some? then changes.code.value else p.code);
            UpdateProduct(store, target, actor, expected, changes, rules, now).Accepted?
              == (&& (expected.Some? ==> expected.value == p.updatedAt) && IsClean(p, actor, changes, rules)
                  && forall other :: other in store && other != p.id ==> Some(store[other].code) != code)
  {
    UpdatedIff(Find(store, target).value, actor, changes, rules, now);
  }

  /** A creation is carried out exactly when its id is new, everything is clean, and no product has the code. */
  lemma CreateAcceptedIff(s: System, step: Step, rules: Rules)
    requires step.Create?
    ensures Next(s, step, rules).store != s.store
      <==> && step.id !in s.store && step.fields.Keys == rules.names && rules.actor(step.actor).Some?
           && rules.code(step.code).Some?
           && (forall f :: f in step.fields ==> rules.field(f, step.fields[f]).Some?)
           && (forall other :: other in s.store ==> Some(s.store[other].code) != rules.code(step.code))
  {
    CleanedIff(rules, step.fields);
    var made := Created(step.id, step.code, step.fields, step.actor, rules, step.now);
    if made.Some? && step.id !in s.store && !CodeTaken(s.store, made.value.code, step.id) {
      assert step.id in Next(s, step, rules).store;
    }
  }

  // ----- no two products have the same code -----

  ghost predicate CodesDistinct(store: Store) {
    forall id, other :: id in store && other in store && store[id].code == store[other].code ==> id == other
  }

  lemma PutKeepsCodes(store: Store, p: Product)
    requires CodesDistinct(store) && !CodeTaken(store, p.code, p.id)
    ensures CodesDistinct(store[p.id := p])
  {
  }

  /** In every interleaving, and so every search by code has one answer. */
  lemma {:induction false} CodesStayDistinct(s: System, steps: seq<Step>, rules: Rules)
    requires Reachable(s, steps, rules)
    ensures CodesDistinct(s.store)
    ensures forall id :: id in s.store ==> Find(s.store, ByCode(s.store[id].code)) == Some(s.store[id])
    decreases |steps|
  {
    if steps != [] {
      var front, last := steps[..|steps| - 1], steps[|steps| - 1];
      var r :| Reachable(r, front, rules) && Advances(r, last) && s == Next(r, last, rules);
      CodesStayDistinct(r, front, rules);
      if s.store != r.store { StoreChangesByPut(r, last, rules); }
    }
  }

  lemma CreateKeepsCodes(s: System, step: Step, rules: Rules)
    requires step.Create? && CodesDistinct(s.store) && DoCreate(s, step, rules).store != s.store
    ensures CodesDistinct(DoCreate(s, step, rules).store)
  {
    PutKeepsCodes(s.store, Created(step.id, step.code, step.fields, step.actor, rules, step.now).value);
  }

  lemma UpdateKeepsCodes(s: System, step: Step, rules: Rules)
    requires step.Update? && CodesDistinct(s.store) && DoUpdate(s, step, rules).store != s.store
    ensures CodesDistinct(DoUpdate(s, step, rules).store)
  {
    var p := OutcomeOf(s, step, rules).product;
    assert !CodeTaken(s.store, p.code, p.id);
    PutKeepsCodes(s.store, p);
  }

  lemma StoreChangesByPut(s: System, step: Step, rules: Rules)
    requires CodesDistinct(s.store) && Next(s, step, rules).store != s.store
    ensures CodesDistinct(Next(s, step, rules).store)
  {
    match step
    case Create(_, _, _, _, _, _) => CreateKeepsCodes(s, step, rules);
    case Update(_, _, _, _, _, _) => UpdateKeepsCodes(s, step, rules);
    case _ =>
  }

  lemma {:induction false} ListedAreStored(store: Store, ids: seq<string>)
    ensures forall p :: p in Listed(store, ids) <==> exists i :: 0 <= i < |ids| && ids[i] in store && store[ids[i]] == p
    decreases |ids|
  {
    if ids != [] {
      ListedAreStored(store, ids[1..]);
      assert forall i :: 0 <= i < |ids[1..]| ==> ids[1..][i] == ids[i + 1];
      forall p | p in Listed(store, ids)
        ensures exists i :: 0 <= i < |ids| && ids[i] in store && store[ids[i]] == p
      {
        if p in Listed(store, ids[1..]) {
          var i :| 0 <= i < |ids[1..]| && ids[1..][i] in store && store[ids[1..][i]] == p;
          assert ids[i + 1] in store && store[ids[i + 1]] == p;
        }
      }
      forall i | 0 <= i < |ids| && ids[i] in store ensures store[ids[i]] in Listed(store, ids) {
        if i > 0 { assert ids[1..][i - 1] in store; }
      }
    }
  }

  /** A read is answered with the product as it is stored. */
  lemma ReadAnswersStored(s: System, client: nat, id: string, rules: Rules)
    ensures var t := Next(s, Read(client, ById(id)), rules);
            && t.store == s.store && t.log == s.log && client in t.wire
            && t.wire[client] == if id in s.store then [s.store[id]] else []
  {
  }
}
