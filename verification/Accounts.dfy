/** The server's account table: bootstrap, creation and update, each one transaction.  Text is ASCII. */
module Accounts {
  import opened Wrappers

  datatype Role = ADMIN | EDITOR | VIEWER

  datatype Account = Account(username: string, passwordHash: string, role: Role, active: bool)

  type Table = map<string, Account>

  datatype Error = InvalidUsername | InvalidRole | InvalidPassword | DuplicateUsername | DuplicateId
                 | NotFound | LastAdministrator | NotConfigured

  datatype Result = Ok(table: Table) | Err(error: Error)

  function Fold(c: char): char {
    if 'A' <= c <= 'Z' then c - 'A' + 'a' else c
  }

  function Casefold(s: string): (t: string)
    ensures |t| == |s|
  {
    if s == "" then "" else [Fold(s[0])] + Casefold(s[1..])
  }

  predicate NameChar(c: char) {
    'a' <= c <= 'z' || 'A' <= c <= 'Z' || '0' <= c <= '9' || c == '.' || c == '_' || c == '-'
  }

  predicate ValidUsername(s: string) {
    3 <= |s| <= 64 && forall i :: 0 <= i < |s| ==> NameChar(s[i])
  }

  predicate IsActiveAdmin(a: Account) {
    a.active && a.role == ADMIN
  }

  function ActiveAdmins(t: Table): set<string> {
    set id | id in t && IsActiveAdmin(t[id])
  }

  predicate NameTaken(t: Table, name: string, exceptId: string) {
    exists id :: id in t && id != exceptId && t[id].username == name
  }

  predicate NameUsed(t: Table, name: string) {
    exists id :: id in t && t[id].username == name
  }

  // ----- the operations -----

  /** bootstrap_admin; hash is the hashed password, if it may be hashed at all. */
  function Bootstrapped(t: Table, username: string, hash: Option<string>, id: string): Result {
    if t != map[] then Ok(t)
    else if username == "" then Err(NotConfigured)
    else if !ValidUsername(username) then Err(InvalidUsername)
    else if hash.None? then Err(InvalidPassword)
    else Ok(t[id := Account(Casefold(username), hash.value, ADMIN, true)])
  }

  /** create_account; role is the parsed role, if there is one of that name. */
  function Created(t: Table, username: string, hash: Option<string>, role: Option<Role>, id: string): Result {
    if !ValidUsername(username) then Err(InvalidUsername)
    else if role.None? then Err(InvalidRole)
    else if NameUsed(t, Casefold(username)) then Err(DuplicateUsername)
    else if hash.None? then Err(InvalidPassword)
    else if id in t then Err(DuplicateId)
    else Ok(t[id := Account(Casefold(username), hash.value, role.value, true)])
  }

  /** A requested change; the inner options are an unparsable role and a refused password. */
  datatype Change = Change(username: Option<string>, active: Option<bool>, role: Option<Option<Role>>,
                           hash: Option<Option<string>>)

  function NextUsername(a: Account, ch: Change): string {
    if ch.username.None? then a.username else Strip(Casefold(ch.username.value))
  }

  /** update_account */
  function Changed(t: Table, id: string, ch: Change): Result {
    if id !in t then Err(NotFound)
    else
      var a := t[id];
      var name := NextUsername(a, ch);
      if ch.username.Some? && !ValidUsername(name) then Err(InvalidUsername)
      else if ch.username.Some? && NameTaken(t, name, id) then Err(DuplicateUsername)
      else if ch.role.Some? && ch.role.value.None? then Err(InvalidRole)
      else
        var active := if ch.active.None? then a.active else ch.active.value;
        var role := if ch.role.None? then a.role else ch.role.value.value;
        if IsActiveAdmin(a) && (!active || role != ADMIN) && |ActiveAdmins(t)| <= 1 then Err(LastAdministrator)
        else if ch.hash.Some? && ch.hash.value.None? then Err(InvalidPassword)
        else Ok(t[id := Account(name, if ch.hash.None? then a.passwordHash else ch.hash.value.value, role, active)])
  }

  class ServerAuthService {
    var accounts: Table

    constructor ()
      ensures accounts == map[]
    {
      accounts := map[];
    }

    method BootstrapAdmin(username: string, hash: Option<string>, id: string) returns (error: Option<Error>)
      modifies this`accounts
      ensures match Bootstrapped(old(accounts), username, hash, id)
              case Ok(t) => error == None && accounts == t
              case Err(e) => error == Some(e) && accounts == old(accounts)
    {
      if |accounts| > 0 {
        return None;
      }
      if username == "" {
        return Some(NotConfigured);
      }
      if !ValidUsername(username) {
        return Some(InvalidUsername);
      }
      if hash.None? {
        return Some(InvalidPassword);
      }
      accounts := accounts[id := Account(Casefold(username), hash.value, ADMIN, true)];
      return None;
    }

    method CreateAccount(username: string, hash: Option<string>, role: Option<Role>, id: string)
      returns (error: Option<Error>)
      modifies this`accounts
      ensures match Created(old(accounts), username, hash, role, id)
              case Ok(t) => error == None && accounts == t
              case Err(e) => error == Some(e) && accounts == old(accounts)
    {
      if !ValidUsername(username) {
        return Some(InvalidUsername);
      }
      if role.None? {
        return Some(InvalidRole);
      }
      if NameUsed(accounts, Casefold(username)) {
        return Some(DuplicateUsername);
      }
      if hash.None? {
        return Some(InvalidPassword);
      }
      if id in accounts {
        return Some(DuplicateId);
      }
      accounts := accounts[id := Account(Casefold(username), hash.value, role.value, true)];
      return None;
    }

    method UpdateAccount(id: string, ch: Change) returns (error: Option<Error>)
      modifies this`accounts
      ensures match Changed(old(accounts), id, ch)
              case Ok(t) => error == None && accounts == t
              case Err(e) => error == Some(e) && accounts == old(accounts)
    {
      if id !in accounts {
        return Some(NotFound);
      }
      var account := accounts[id];
      var name := account.username;
      if ch.username.Some? {
        name := Strip(Casefold(ch.username.value));
        if !ValidUsername(name) {
          return Some(InvalidUsername);
        }
        if NameTaken(accounts, name, id) {
          return Some(DuplicateUsername);
        }
      }
      var active := if ch.active.None? then account.active else ch.active.value;
      if ch.role.Some? && ch.role.value.None? {
        return Some(InvalidRole);
      }
      var role := if ch.role.None? then account.role else ch.role.value.value;
      var removesAdminAccess := account.active && account.role == ADMIN && (!active || role != ADMIN);
      if removesAdminAccess {
        var activeAdmins := |ActiveAdmins(accounts)|;
        if activeAdmins <= 1 {
          return Some(LastAdministrator);
        }
      }
      if ch.hash.Some? && ch.hash.value.None? {
        return Some(InvalidPassword);
      }
      var hash := if ch.hash.None? then account.passwordHash else ch.hash.value.value;
      accounts := accounts[id := Account(name, hash, role, active)];
      return None;
    }
  }

  // ----- what every run keeps -----

  datatype Step =
    | Create(username: string, hash: Option<string>, role: Option<Role>, id: string)
    | Update(id: string, change: Change)
    | Bootstrap(username: string, hash: Option<string>, id: string)

  function Apply(t: Table, step: Step): Table {
    var r := match step
      case Create(username, hash, role, id) => Created(t, username, hash, role, id)
      case Update(id, change) => Changed(t, id, change)
      case Bootstrap(username, hash, id) => Bootstrapped(t, username, hash, id);
    if r.Ok? then r.table else t
  }

  function Run(t: Table, steps: seq<Step>): Table
    decreases |steps|
  {
    if steps == [] then t else Run(Apply(t, steps[0]), steps[1..])
  }

  predicate HasAdmin(t: Table) {
    exists id :: id in t && IsActiveAdmin(t[id])
  }

  /** Stored names are case-folded and pairwise distinct, hence distinct without regard to case. */
  predicate NamesDistinct(t: Table) {
    && (forall id :: id in t ==> Casefold(t[id].username) == t[id].username)
    && (forall id, other :: id in t && other in t && id != other ==> t[id].username != t[other].username)
  }

  lemma {:induction false} CasefoldIsIdempotent(s: string)
    ensures Casefold(Casefold(s)) == Casefold(s)
  {
    if s != "" {
      assert Casefold(s)[1..] == Casefold(s[1..]);
      CasefoldIsIdempotent(s[1..]);
    }
  }

  lemma {:induction false} CasefoldAt(s: string)
    ensures Casefold(s) == s <==> forall i :: 0 <= i < |s| ==> Fold(s[i]) == s[i]
  {
    if s != "" {
      CasefoldAt(s[1..]);
      assert forall i :: 0 <= i < |s[1..]| ==> s[1..][i] == s[i + 1];
      if Casefold(s) == s { assert Casefold(s)[1..] == s[1..]; }
      if forall i :: 0 <= i < |s| ==> Fold(s[i]) == s[i] { assert s == [s[0]] + s[1..]; }
    }
  }

  lemma {:induction false} StripIsPart(s: string) returns (i: nat, j: nat)
    ensures i <= j <= |s| && Strip(s) == s[i..j]
  {
    i := 0;
    while i < |s| && IsSpace(s[i])
      invariant i <= |s| && StripLeft(s) == StripLeft(s[i..])
    {
      assert s[i..][1..] == s[i + 1..];
      i := i + 1;
    }
    j := |s|;
    assert s[i..j] == s[i..] == StripLeft(s);
    while j > i && IsSpace(s[j - 1])
      invariant i <= j <= |s| && Strip(s) == StripRight(s[i..j])
    {
      assert s[i..j][..j - i - 1] == s[i..j - 1];
      j := j - 1;
    }
  }

  lemma StrippedStaysFolded(s: string)
    ensures Casefold(Strip(Casefold(s))) == Strip(Casefold(s))
  {
    var t := Casefold(s);
    CasefoldIsIdempotent(s);
    CasefoldAt(t);
    var i, j := StripIsPart(t);
    CasefoldAt(Strip(t));
  }

  lemma AnotherAdmin(admins: set<string>, id: string) returns (other: string)
    requires id in admins && |admins| > 1
    ensures other in admins && other != id
  {
    var rest := admins - {id};
    assert |rest| > 0;
    other :| other in rest;
  }

  lemma ApplyKeepsAdmin(t: Table, step: Step)
    requires HasAdmin(t)
    ensures HasAdmin(Apply(t, step))
  {
    var u := Apply(t, step);
    var admin :| admin in t && IsActiveAdmin(t[admin]);
    if step.Update? && step.id == admin && u != t && !IsActiveAdmin(u[admin]) {
      var other := AnotherAdmin(ActiveAdmins(t), admin);
      assert other in u && IsActiveAdmin(u[other]);
    } else {
      assert admin in u && IsActiveAdmin(u[admin]);
    }
  }

  lemma CreatedKeepsNames(t: Table, username: string, hash: Option<string>, role: Option<Role>, id: string)
    requires NamesDistinct(t) && Created(t, username, hash, role, id).Ok?
    ensures NamesDistinct(Created(t, username, hash, role, id).table)
  {
    CasefoldIsIdempotent(username);
  }

  lemma BootstrappedKeepsNames(t: Table, username: string, hash: Option<string>, id: string)
    requires NamesDistinct(t) && Bootstrapped(t, username, hash, id).Ok?
    ensures NamesDistinct(Bootstrapped(t, username, hash, id).table)
  {
    CasefoldIsIdempotent(username);
  }

  lemma ChangedKeepsNames(t: Table, id: string, ch: Change)
    requires NamesDistinct(t) && Changed(t, id, ch).Ok?
    ensures NamesDistinct(Changed(t, id, ch).table)
  {
    if ch.username.Some? { StrippedStaysFolded(ch.username.value); }
  }

  lemma ApplyKeepsNames(t: Table, step: Step)
    requires NamesDistinct(t)
    ensures NamesDistinct(Apply(t, step))
  {
    match step
    case Create(username, hash, role, id) =>
      if Created(t, username, hash, role, id).Ok? { CreatedKeepsNames(t, username, hash, role, id); }
    case Bootstrap(username, hash, id) =>
      if Bootstrapped(t, username, hash, id).Ok? { BootstrappedKeepsNames(t, username, hash, id); }
    case Update(id, change) =>
      if Changed(t, id, change).Ok? { ChangedKeepsNames(t, id, change); }
  }

  /** Every run of creations, updates and restarts keeps an active administrator and keeps the stored names
      pairwise distinct. */
  lemma {:induction false} RunKeepsAdminAndNames(t: Table, steps: seq<Step>)
    requires HasAdmin(t) && NamesDistinct(t)
    ensures HasAdmin(Run(t, steps)) && NamesDistinct(Run(t, steps))
    decreases |steps|
  {
    if steps != [] {
      ApplyKeepsAdmin(t, steps[0]);
      ApplyKeepsNames(t, steps[0]);
      RunKeepsAdminAndNames(Apply(t, steps[0]), steps[1..]);
    }
  }

  /** Bootstrapping leaves an active administrator exactly when the table was empty or already had one: an
      account created before the bootstrap can lock administration out. */
  lemma BootstrapGivesAdminIff(t: Table, username: string, hash: Option<string>, id: string)
    requires Bootstrapped(t, username, hash, id).Ok?
    ensures HasAdmin(Bootstrapped(t, username, hash, id).table) <==> t == map[] || HasAdmin(t)
    ensures t == map[] ==> NamesDistinct(Bootstrapped(t, username, hash, id).table)
  {
    if t == map[] {
      CasefoldIsIdempotent(username);
      assert IsActiveAdmin(Bootstrapped(t, username, hash, id).table[id]);
    }
  }

  /** From a bootstrapped empty table, at every time. */
  lemma BootstrappedForGood(username: string, hash: Option<string>, id: string, steps: seq<Step>)
    requires Bootstrapped(map[], username, hash, id).Ok?
    ensures var t := Run(Bootstrapped(map[], username, hash, id).table, steps);
            HasAdmin(t) && NamesDistinct(t)
  {
    BootstrapGivesAdminIff(map[], username, hash, id);
    RunKeepsAdminAndNames(Bootstrapped(map[], username, hash, id).table, steps);
  }

  // ----- when an operation is accepted, and what it then does -----

  /** Nothing but the account under id has changed. */
  predicate SameBut(t: Table, u: Table, id: string) {
    u.Keys == t.Keys + {id} && forall other :: other in t && other != id ==> u[other] == t[other]
  }

  /** The account asked for: what is given replaces what was there. */
  predicate IsAsRequested(a: Account, b: Account, ch: Change) {
    && (match ch.username case Some(name) => b.username == Strip(Casefold(name)) case None => b.username == a.username)
    && (match ch.active case Some(active) => b.active == active case None => b.active == a.active)
    && (match ch.role case Some(role) => role == Some(b.role) case None => b.role == a.role)
    && (match ch.hash case Some(hash) => hash == Some(b.passwordHash) case None => b.passwordHash == a.passwordHash)
  }

  /** The parts of a change can be read, and its name is valid and no other account's. */
  predicate IsAcceptable(t: Table, id: string, ch: Change) {
    && (ch.username.Some? ==>
          var name := Strip(Casefold(ch.username.value));
          ValidUsername(name) && forall other :: other in t && other != id ==> t[other].username != name)
    && (ch.role.Some? ==> ch.role.value.Some?)
    && (ch.hash.Some? ==> ch.hash.value.Some?)
  }

  lemma OnlyAdmin(t: Table, id: string)
    requires id in t && IsActiveAdmin(t[id])
    ensures |ActiveAdmins(t)| <= 1 <==> forall other :: other in t && IsActiveAdmin(t[other]) ==> other == id
  {
    assert id in ActiveAdmins(t);
    if |ActiveAdmins(t)| <= 1 {
      forall other | other in t && IsActiveAdmin(t[other]) ensures other == id {
        if other != id {
          assert {id, other} <= ActiveAdmins(t);
          Subset({id, other}, ActiveAdmins(t));
        }
      }
    }
    if forall other :: other in t && IsActiveAdmin(t[other]) ==> other == id {
      assert ActiveAdmins(t) == {id};
    }
  }

  lemma {:induction false} Subset(a: set<string>, b: set<string>)
    requires a <= b
    ensures |a| <= |b|
    decreases |a|
  {
    if a != {} {
      var x :| x in a;
      Subset(a - {x}, b - {x});
    }
  }

  /** An update is accepted exactly when the account is there, the change is acceptable, and, unless there was no
      active administrator before either, one is left; and then exactly the change asked for has been made. */
  lemma UpdateIff(t: Table, id: string, ch: Change, u: Table)
    ensures Changed(t, id, ch) == Ok(u)
      <==> && id in t && id in u && SameBut(t, u, id) && IsAsRequested(t[id], u[id], ch) && IsAcceptable(t, id, ch)
           && (HasAdmin(t) ==> HasAdmin(u))
  {
    if id in t && IsActiveAdmin(t[id]) { OnlyAdmin(t, id); }
    if id in t && id in u && SameBut(t, u, id) && IsAsRequested(t[id], u[id], ch) && IsAcceptable(t, id, ch) {
      assert u == t[id := u[id]];
      AdminIsLeft(t, id, u);
    }
    if Changed(t, id, ch) == Ok(u) {
      AdminIsLeft(t, id, u);
    }
  }

  lemma AdminIsLeft(t: Table, id: string, u: Table)
    requires id in t && id in u && SameBut(t, u, id)
    ensures (HasAdmin(t) ==> HasAdmin(u))
      <==> !(IsActiveAdmin(t[id]) && !IsActiveAdmin(u[id])
             && forall other :: other in t && IsActiveAdmin(t[other]) ==> other == id)
  {
    if HasAdmin(t) {
      var admin :| admin in t && IsActiveAdmin(t[admin]);
      if admin != id { assert admin in u && IsActiveAdmin(u[admin]); }
      if IsActiveAdmin(u[id]) { assert HasAdmin(u); }
    }
  }

  /** A creation is accepted exactly when the name is valid and unused whatever its case, the role and the password
      can be read and the id is new; and then exactly that active account has been added. */
  lemma CreateIff(t: Table, username: string, hash: Option<string>, role: Option<Role>, id: string, u: Table)
    ensures Created(t, username, hash, role, id) == Ok(u)
      <==> && ValidUsername(username) && role.Some? && hash.Some? && id !in t
           && (forall other :: other in t ==> t[other].username != Casefold(username))
           && id in u && SameBut(t, u, id)
           && u[id] == Account(Casefold(username), hash.value, role.value, true)
  {
    if id in u && id !in t && SameBut(t, u, id) { assert u == t[id := u[id]]; }
  }

  /** A bootstrap of an empty table adds exactly one active administrator, of the configured name. */
  lemma BootstrapIff(username: string, hash: Option<string>, id: string, u: Table)
    ensures Bootstrapped(map[], username, hash, id) == Ok(u)
      <==> && ValidUsername(username) && hash.Some? && u.Keys == {id}
           && u[id] == Account(Casefold(username), hash.value, ADMIN, true)
  {
    if u.Keys == {id} { assert u == map[id := u[id]]; }
  }

  // ----- names that differ only in case -----

  predicate SameLetter(c: char, d: char) {
    c == d || ('A' <= c <= 'Z' && d == c - 'A' + 'a') || ('A' <= d <= 'Z' && c == d - 'A' + 'a')
  }

  predicate SameButCase(s: string, t: string) {
    |s| == |t| && forall i :: 0 <= i < |s| ==> SameLetter(s[i], t[i])
  }

  lemma {:induction false} CasefoldJoinsCases(s: string, t: string)
    ensures Casefold(s) == Casefold(t) <==> SameButCase(s, t)
  {
    if |s| == |t| && s != "" {
      CasefoldJoinsCases(s[1..], t[1..]);
      assert Casefold(s)[1..] == Casefold(s[1..]) && Casefold(t)[1..] == Casefold(t[1..]);
      assert SameButCase(s, t) <==> SameLetter(s[0], t[0]) && SameButCase(s[1..], t[1..]) by {
        assert forall i :: 0 <= i < |s[1..]| ==> s[1..][i] == s[i + 1] && t[1..][i] == t[i + 1];
        if SameLetter(s[0], t[0]) && SameButCase(s[1..], t[1..]) {
          forall i | 0 <= i < |s| ensures SameLetter(s[i], t[i]) {
            if i > 0 { assert SameLetter(s[1..][i - 1], t[1..][i - 1]); }
          }
        }
      }
      assert Fold(s[0]) == Fold(t[0]) <==> SameLetter(s[0], t[0]);
    }
  }

  /** No two stored names differ only in case, after any run from a table with distinct names. */
  lemma NamesDifferInMoreThanCase(t: Table, steps: seq<Step>, id: string, other: string)
    requires HasAdmin(t) && NamesDistinct(t)
    requires id in Run(t, steps) && other in Run(t, steps) && id != other
    ensures !SameButCase(Run(t, steps)[id].username, Run(t, steps)[other].username)
  {
    RunKeepsAdminAndNames(t, steps);
    CasefoldJoinsCases(Run(t, steps)[id].username, Run(t, steps)[other].username);
  }
}
