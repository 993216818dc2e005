/**
  Accounts and session epochs (`users.rs`). Every write is one database
  transaction; a run is any interleaving of those transactions, from any number
  of service handles. A salted password hash is a value never produced before.
 */
module Users {
  import opened Text
  import opened Sets

  datatype Role = Admin | Editor | Viewer

  datatype User = User(username: string, hash: nat, displayName: string, role: Role, epoch: nat)

  /** The `users` table. `nextId` is its AUTOINCREMENT counter; `nextHash` the next fresh hash. */
  datatype Table = Table(rows: map<nat, User>, nextId: nat, nextHash: nat)

  datatype Error =
    | AlreadyInitialized | InvalidUsername | PasswordTooShort | UsernameTaken
    | NotFound | LastAdmin | DeletesItself | WrongCurrentPassword | StorageError

  /** The outcome of an operation; `Done` carries the account it concerned and its epoch. */
  datatype Outcome = Done(id: nat, epoch: nat) | Refused(error: Error)

  /** The write transactions. `CommitPassword` is the second statement of `change_password`. */
  datatype Op =
    | Setup(username: string, password: string, displayName: string)
    | Create(username: string, password: string, displayName: string, role: Role)
    | Update(id: nat, displayName: string, role: Role)
    | Delete(id: nat, acting: Option<nat>)
    | CommitPassword(id: nat, verified: nat, password: string)
    | Reset(id: nat, password: string)

  const MAX_USERNAME_LEN := 32
  const MIN_PASSWORD_LEN := 8

  function ValidateNew(username: string, password: string): Option<Error> {
    if !(1 <= |Trim(username)| <= MAX_USERNAME_LEN) then Some(InvalidUsername)
    else if |password| < MIN_PASSWORD_LEN then Some(PasswordTooShort)
    else None
  }

  function Admins(t: Table): set<nat> {
    set id | id in t.rows && t.rows[id].role == Admin
  }

  predicate HasAdmin(t: Table) {
    Admins(t) != {}
  }

  predicate UsernameUsed(t: Table, username: string) {
    exists id :: id in t.rows && t.rows[id].username == username
  }

  /** The last-admin guard, judged in the transaction that writes. */
  function EnsureAdminRemovalAllowed(t: Table, id: nat, removesAdmin: bool): Option<Error> {
    if id !in t.rows then Some(NotFound)
    else if t.rows[id].role == Admin && removesAdmin && |Admins(t)| <= 1 then Some(LastAdmin)
    else None
  }

  function Insert(t: Table, username: string, displayName: string, role: Role): (Table, Outcome) {
    var user := User(Trim(username), t.nextHash, Trim(displayName), role, 0);
    (Table(t.rows[t.nextId := user], t.nextId + 1, t.nextHash + 1), Done(t.nextId, 0))
  }

  /** Replace the password: the hash and the epoch change in one UPDATE. */
  function SetPassword(t: Table, id: nat): (Table, Outcome)
    requires id in t.rows
  {
    var user := t.rows[id].(hash := t.nextHash, epoch := t.rows[id].epoch + 1);
    (t.(rows := t.rows[id := user], nextHash := t.nextHash + 1), Done(id, user.epoch))
  }

  function Apply(t: Table, op: Op): (Table, Outcome) {
    match op
    case Setup(username, password, displayName) =>
      if t.rows != map[] then (t, Refused(AlreadyInitialized))
      else (match ValidateNew(username, password)
        case Some(error) => (t, Refused(error))
        case None => Insert(t, username, displayName, Admin))
    case Create(username, password, displayName, role) =>
      (match ValidateNew(username, password)
        case Some(error) => (t, Refused(error))
        case None =>
          if UsernameUsed(t, Trim(username)) then (t, Refused(UsernameTaken))
          else Insert(t, username, displayName, role))
    case Update(id, displayName, role) =>
      (match EnsureAdminRemovalAllowed(t, id, role != Admin)
        case Some(error) => (t, Refused(error))
        case None =>
          var row := t.rows[id];
          var bump := if row.role == role then 0 else 1;
          var user := row.(displayName := Trim(displayName), role := role, epoch := row.epoch + bump);
          (t.(rows := t.rows[id := user]), Done(id, user.epoch)))
    case Delete(id, acting) =>
      if acting == Some(id) then (t, Refused(DeletesItself))
      else (match EnsureAdminRemovalAllowed(t, id, true)
        case Some(error) => (t, Refused(error))
        case None => (t.(rows := t.rows - {id}), Done(id, t.rows[id].epoch)))
    case CommitPassword(id, verified, password) =>
      if |password| < MIN_PASSWORD_LEN then (t, Refused(PasswordTooShort))
      else if id in t.rows && t.rows[id].hash == verified then SetPassword(t, id)
      else (t, Refused(WrongCurrentPassword))
    case Reset(id, password) =>
      if |password| < MIN_PASSWORD_LEN then (t, Refused(PasswordTooShort))
      else if id in t.rows then SetPassword(t, id)
      else (t, Refused(NotFound))
  }

  function Run(t: Table, ops: seq<Op>): Table
    decreases ops
  {
    if ops == [] then t else Run(Apply(t, ops[0]).0, ops[1..])
  }

  lemma {:induction false} RunAppend(t: Table, a: seq<Op>, b: seq<Op>)
    ensures Run(t, a + b) == Run(Run(t, a), b)
    decreases a
  {
    if a == [] {
      assert a + b == b;
    } else {
      assert (a + b)[1..] == a[1..] + b;
      RunAppend(Apply(t, a[0]).0, a[1..], b);
    }
  }

  // ---- what every operation keeps ----------------------------------------

  /** Ids and hashes are older than their counters, and usernames are unique. */
  ghost predicate Inv(t: Table) {
    && (forall id :: id in t.rows ==> id < t.nextId && t.rows[id].hash < t.nextHash)
    && (forall i, j :: i in t.rows && j in t.rows && t.rows[i].username == t.rows[j].username ==> i == j)
  }

  lemma ApplyKeepsInv(t: Table, op: Op)
    requires Inv(t)
    ensures Inv(Apply(t, op).0)
  {
  }

  lemma {:induction false} RunKeepsInv(t: Table, ops: seq<Op>)
    requires Inv(t)
    ensures Inv(Run(t, ops))
    decreases ops
  {
    if ops != [] {
      ApplyKeepsInv(t, ops[0]);
      RunKeepsInv(Apply(t, ops[0]).0, ops[1..]);
    }
  }

  /** A refused operation leaves the whole table as it was, epochs included. */
  lemma RefusedChangesNothing(t: Table, op: Op)
    requires Apply(t, op).1.Refused?
    ensures Apply(t, op).0 == t
  {
  }

  // ---- what each operation does, field by field ---------------------------------

  /** No other account is an administrator. */
  ghost predicate OnlyAdmin(t: Table, id: nat) {
    && id in t.rows && t.rows[id].role == Admin
    && forall other :: other in t.rows && t.rows[other].role == Admin ==> other == id
  }

  lemma OnlyAdminIff(t: Table, id: nat)
    requires id in t.rows
    ensures OnlyAdmin(t, id) <==> t.rows[id].role == Admin && |Admins(t)| <= 1
  {
    if OnlyAdmin(t, id) { assert Admins(t) == {id}; }
    if t.rows[id].role == Admin && |Admins(t)| <= 1 {
      SubsetSize({id}, Admins(t));
      forall other | other in t.rows && t.rows[other].role == Admin ensures other == id {
        assert other in Admins(t);
      }
    }
  }

  /** Why a name or a password is not accepted for a new account: 1 to 32 characters trimmed, and at least 8. */
  lemma ValidateNewIff(username: string, password: string)
    ensures ValidateNew(username, password) == Some(InvalidUsername) <==> Trim(username) == "" || |Trim(username)| > 32
    ensures ValidateNew(username, password) == Some(PasswordTooShort)
            <==> Trim(username) != "" && |Trim(username)| <= 32 && |password| < 8
    ensures ValidateNew(username, password) == None
            <==> Trim(username) != "" && |Trim(username)| <= 32 && |password| >= 8
  {
  }

  /** All rows but this one are as they were. */
  ghost predicate OthersAsTheyWere(t: Table, t': Table, id: nat) {
    forall other :: other != id ==>
      (other in t'.rows <==> other in t.rows) && (other in t.rows ==> t'.rows[other] == t.rows[other])
  }

  /** A new account: under a new id, with the name and display name trimmed, the role asked for, a new hash, epoch 0. */
  ghost predicate Created(t: Table, t': Table, outcome: Outcome, username: string, displayName: string, role: Role) {
    && outcome.Done? && outcome.epoch == 0 && outcome.id !in t.rows && outcome.id in t'.rows
    && OthersAsTheyWere(t, t', outcome.id)
    && var user := t'.rows[outcome.id];
       && user.username == Trim(username) && user.displayName == Trim(displayName) && user.role == role && user.epoch == 0
       && forall other :: other in t.rows ==> t.rows[other].hash != user.hash
  }

  /** Setup creates an administrator if and only if there is no account at all and name and password are acceptable. */
  lemma SetupDoes(t: Table, username: string, password: string, displayName: string)
    requires Inv(t)
    ensures var (t', outcome) := Apply(t, Setup(username, password, displayName));
            && (outcome.Done? <==> (forall id :: id !in t.rows) && ValidateNew(username, password).None?)
            && (outcome.Done? ==> Created(t, t', outcome, username, displayName, Admin))
            && (outcome.Refused? ==>
                  if exists id :: id in t.rows then outcome.error == AlreadyInitialized
                  else Some(outcome.error) == ValidateNew(username, password))
  {
    assert (forall id :: id !in t.rows) ==> t.rows == map[];
    hide ValidateNew;
  }

  /** Creating does if and only if name and password are acceptable and no account has the trimmed name. */
  lemma CreateDoes(t: Table, username: string, password: string, displayName: string, role: Role)
    requires Inv(t)
    ensures var (t', outcome) := Apply(t, Create(username, password, displayName, role));
            var taken := exists id :: id in t.rows && t.rows[id].username == Trim(username);
            && (outcome.Done? <==> ValidateNew(username, password).None? && !taken)
            && (outcome.Done? ==> Created(t, t', outcome, username, displayName, role))
            && (outcome.Refused? ==>
                  if ValidateNew(username, password).None? then outcome.error == UsernameTaken
                  else Some(outcome.error) == ValidateNew(username, password))
  {
    hide ValidateNew;
  }

  /**
    Updating does if and only if the account is there and is not the only
    administrator losing the role; then exactly role and display name are set, and
    the epoch goes up if and only if the role is another one.
   */
  lemma UpdateDoes(t: Table, id: nat, displayName: string, role: Role)
    ensures var (t', outcome) := Apply(t, Update(id, displayName, role));
            && (outcome == Refused(NotFound) <==> id !in t.rows)
            && (outcome == Refused(LastAdmin) <==> OnlyAdmin(t, id) && role != Admin)
            && (id in t.rows && !(OnlyAdmin(t, id) && role != Admin) ==>
                  && outcome.Done? && outcome.id == id && id in t'.rows && OthersAsTheyWere(t, t', id)
                  && var row, row' := t.rows[id], t'.rows[id];
                     && row'.role == role && row'.displayName == Trim(displayName)
                     && row'.username == row.username && row'.hash == row.hash
                     && outcome.epoch == row'.epoch == row.epoch + (if role != row.role then 1 else 0))
  {
    if id in t.rows { OnlyAdminIff(t, id); }
    hide Admins;
  }

  /** Deleting does if and only if the account is there, is not the caller's own and not the only administrator; then it is gone. */
  lemma DeleteDoes(t: Table, id: nat, acting: Option<nat>)
    ensures var (t', outcome) := Apply(t, Delete(id, acting));
            && (outcome == Refused(DeletesItself) <==> acting == Some(id))
            && (outcome == Refused(NotFound) <==> acting != Some(id) && id !in t.rows)
            && (outcome == Refused(LastAdmin) <==> acting != Some(id) && OnlyAdmin(t, id))
            && (acting != Some(id) && id in t.rows && !OnlyAdmin(t, id) ==>
                  outcome.Done? && outcome.id == id && id !in t'.rows && OthersAsTheyWere(t, t', id))
  {
    if id in t.rows { OnlyAdminIff(t, id); }
    hide Admins;
  }

  /** The account has a hash it never had before and the next epoch; nothing else has changed. */
  ghost predicate PasswordReplaced(t: Table, t': Table, outcome: Outcome, id: nat) {
    && id in t.rows && id in t'.rows && OthersAsTheyWere(t, t', id)
    && var row, row' := t.rows[id], t'.rows[id];
       && outcome == Done(id, row.epoch + 1) && row'.epoch == row.epoch + 1
       && row'.username == row.username && row'.displayName == row.displayName && row'.role == row.role
       && forall other :: other in t.rows ==> t.rows[other].hash != row'.hash
  }

  /** A reset replaces the password if and only if it is long enough and the account is there. */
  lemma ResetDoes(t: Table, id: nat, password: string)
    requires Inv(t)
    ensures var (t', outcome) := Apply(t, Reset(id, password));
            && (outcome == Refused(PasswordTooShort) <==> |password| < 8)
            && (outcome == Refused(NotFound) <==> |password| >= 8 && id !in t.rows)
            && (|password| >= 8 && id in t.rows ==> PasswordReplaced(t, t', outcome, id))
  {
  }

  // ---- administrators ------------------------------------------------------

  /** A set of at least two still has a member after losing one. */
  lemma AnotherRemains(s: set<nat>, x: nat)
    requires |s| > 1
    ensures s - {x} != {}
  {
    if x in s { assert s == (s - {x}) + {x}; } else { assert s == s - {x}; }
  }

  lemma ApplyKeepsAdmin(t: Table, op: Op)
    requires HasAdmin(t) && Inv(t)
    ensures HasAdmin(Apply(t, op).0)
  {
    var t' := Apply(t, op).0;
    if op.Update? || op.Delete? {
      var id := op.id;
      if id in Admins(t) && |Admins(t)| > 1 {
        AnotherRemains(Admins(t), id);
        var other :| other in Admins(t) - {id};
        assert other in Admins(t');
      } else if t' != t {
        var admin :| admin in Admins(t);
        assert admin in Admins(t');
      }
    } else {
      var admin :| admin in Admins(t);
      assert admin in Admins(t');
    }
  }

  /** Once an administrator exists, one exists for ever, whatever runs concurrently. */
  lemma {:induction false} AdminForever(t: Table, ops: seq<Op>)
    requires HasAdmin(t) && Inv(t)
    ensures HasAdmin(Run(t, ops))
    decreases ops
  {
    if ops != [] {
      ApplyKeepsAdmin(t, ops[0]);
      ApplyKeepsInv(t, ops[0]);
      AdminForever(Apply(t, ops[0]).0, ops[1..]);
    }
  }

  /** How many of the run's first-user setups succeed. */
  function SetupsDone(t: Table, ops: seq<Op>): nat
    decreases ops
  {
    if ops == [] then 0
    else (if ops[0].Setup? && Apply(t, ops[0]).1.Done? then 1 else 0) + SetupsDone(Apply(t, ops[0]).0, ops[1..])
  }

  lemma {:induction false} NoSetupWithAdmin(t: Table, ops: seq<Op>)
    requires HasAdmin(t) && Inv(t)
    ensures SetupsDone(t, ops) == 0
    decreases ops
  {
    if ops != [] {
      ApplyKeepsAdmin(t, ops[0]);
      ApplyKeepsInv(t, ops[0]);
      NoSetupWithAdmin(Apply(t, ops[0]).0, ops[1..]);
    }
  }

  /** First-user setup succeeds at most once in a whole run, even if other accounts come and go before it. */
  lemma {:induction false} SetupAtMostOnce(t: Table, ops: seq<Op>)
    requires Inv(t)
    ensures SetupsDone(t, ops) <= 1
    decreases ops
  {
    if ops != [] {
      var t' := Apply(t, ops[0]).0;
      ApplyKeepsInv(t, ops[0]);
      if ops[0].Setup? && Apply(t, ops[0]).1.Done? {
        assert t.nextId in Admins(t');
        NoSetupWithAdmin(t', ops[1..]);
      } else {
        SetupAtMostOnce(t', ops[1..]);
      }
    }
  }

  // ---- sessions --------------------------------------------------------------

  /** The account `get_by_username` finds. */
  ghost predicate Found(t: Table, username: string, id: nat) {
    id in t.rows && t.rows[id].username == username
  }

  /** The per-request re-check: the row found by name still has the session's id and epoch. */
  ghost predicate StampMatches(t: Table, username: string, id: nat, epoch: nat) {
    exists found :: Found(t, username, found) && found == id && t.rows[found].epoch == epoch
  }

  /** The operations that end an account's sessions: deletion, a role that really changes, a new password. */
  predicate EndsSessions(t: Table, op: Op, id: nat) {
    Apply(t, op).1.Done?
    && match op
       case Delete(i, _) => i == id
       case Update(i, _, role) => i == id && t.rows[i].role != role
       case CommitPassword(i, _, _) => i == id
       case Reset(i, _) => i == id
       case _ => false
  }

  predicate NothingEnds(t: Table, ops: seq<Op>, id: nat)
    decreases ops
  {
    ops == [] || (!EndsSessions(t, ops[0], id) && NothingEnds(Apply(t, ops[0]).0, ops[1..], id))
  }

  /** A stamp the table no longer knows: the account is gone for good, or has moved past the epoch. */
  ghost predicate Outdated(t: Table, id: nat, epoch: nat) {
    id < t.nextId && (id in t.rows ==> t.rows[id].epoch > epoch)
  }

  lemma ApplyAndStamp(t: Table, op: Op, id: nat)
    requires Inv(t) && id in t.rows
    ensures var t' := Apply(t, op).0;
            if EndsSessions(t, op, id) then Outdated(t', id, t.rows[id].epoch)
            else id in t'.rows && t'.rows[id].epoch == t.rows[id].epoch && t'.rows[id].username == t.rows[id].username
  {
  }

  lemma {:induction false} OutdatedForever(t: Table, ops: seq<Op>, id: nat, epoch: nat)
    requires Inv(t) && Outdated(t, id, epoch)
    ensures Outdated(Run(t, ops), id, epoch)
    decreases ops
  {
    if ops != [] {
      ApplyKeepsInv(t, ops[0]);
      assert Outdated(Apply(t, ops[0]).0, id, epoch);
      OutdatedForever(Apply(t, ops[0]).0, ops[1..], id, epoch);
    }
  }

  /** A session stamp matches after a run exactly when nothing in it ended the account's sessions. */
  lemma {:induction false} StampMatchesIff(t: Table, ops: seq<Op>, id: nat)
    requires Inv(t) && id in t.rows
    ensures StampMatches(Run(t, ops), t.rows[id].username, id, t.rows[id].epoch) <==> NothingEnds(t, ops, id)
    decreases ops
  {
    if ops == [] {
      assert Found(t, t.rows[id].username, id);
    } else {
      var t' := Apply(t, ops[0]).0;
      ApplyKeepsInv(t, ops[0]);
      ApplyAndStamp(t, ops[0], id);
      if EndsSessions(t, ops[0], id) {
        OutdatedForever(t', ops[1..], id, t.rows[id].epoch);
      } else {
        StampMatchesIff(t', ops[1..], id);
      }
    }
  }

  lemma {:induction false} NothingEndsPrefix(t: Table, a: seq<Op>, b: seq<Op>, id: nat)
    requires NothingEnds(t, a + b, id)
    ensures NothingEnds(t, a, id)
    decreases a
  {
    if a != [] {
      assert (a + b)[1..] == a[1..] + b;
      NothingEndsPrefix(Apply(t, a[0]).0, a[1..], b, id);
    }
  }

  /** A stamp that has stopped matching never matches again. */
  lemma StampNeverReturns(t: Table, a: seq<Op>, b: seq<Op>, id: nat)
    requires Inv(t) && id in t.rows
    requires !StampMatches(Run(t, a), t.rows[id].username, id, t.rows[id].epoch)
    ensures !StampMatches(Run(t, a + b), t.rows[id].username, id, t.rows[id].epoch)
  {
    StampMatchesIff(t, a, id);
    StampMatchesIff(t, a + b, id);
    if NothingEnds(t, a + b, id) { NothingEndsPrefix(t, a, b, id); }
  }

  // ---- changing a password -----------------------------------------------

  /** The operations that replace an account's password hash, or remove it with the account. */
  predicate ReplacesHash(t: Table, op: Op, id: nat) {
    Apply(t, op).1.Done?
    && match op
       case Delete(i, _) => i == id
       case CommitPassword(i, _, _) => i == id
       case Reset(i, _) => i == id
       case _ => false
  }

  predicate HashKept(t: Table, ops: seq<Op>, id: nat)
    decreases ops
  {
    ops == [] || (!ReplacesHash(t, ops[0], id) && HashKept(Apply(t, ops[0]).0, ops[1..], id))
  }

  /** The account no longer has hash `h`, and never will: new hashes are fresh. */
  ghost predicate HashGone(t: Table, id: nat, h: nat) {
    id < t.nextId && h < t.nextHash && (id in t.rows ==> t.rows[id].hash != h)
  }

  lemma {:induction false} HashGoneForever(t: Table, ops: seq<Op>, id: nat, h: nat)
    requires Inv(t) && HashGone(t, id, h)
    ensures HashGone(Run(t, ops), id, h)
    decreases ops
  {
    if ops != [] {
      ApplyKeepsInv(t, ops[0]);
      assert HashGone(Apply(t, ops[0]).0, id, h);
      HashGoneForever(Apply(t, ops[0]).0, ops[1..], id, h);
    }
  }

  lemma ApplyAndHash(t: Table, op: Op, id: nat)
    requires Inv(t) && id in t.rows
    ensures var t' := Apply(t, op).0;
            if ReplacesHash(t, op, id) then HashGone(t', id, t.rows[id].hash)
            else id in t'.rows && t'.rows[id].hash == t.rows[id].hash
  {
  }

  lemma {:induction false} HashAfterRun(t: Table, ops: seq<Op>, id: nat)
    requires Inv(t) && id in t.rows
    ensures HashKept(t, ops, id) <==> id in Run(t, ops).rows && Run(t, ops).rows[id].hash == t.rows[id].hash
    decreases ops
  {
    if ops != [] {
      var t' := Apply(t, ops[0]).0;
      ApplyKeepsInv(t, ops[0]);
      ApplyAndHash(t, ops[0], id);
      if ReplacesHash(t, ops[0], id) {
        HashGoneForever(t', ops[1..], id, t.rows[id].hash);
      } else {
        HashAfterRun(t', ops[1..], id);
      }
    }
  }

  /**
    A password change that verified its hash before `ops` ran commits exactly
    when none of them replaced that hash; otherwise it changes nothing.
   */
  lemma CommitIffHashKept(t: Table, ops: seq<Op>, id: nat, password: string)
    requires Inv(t) && id in t.rows && |password| >= MIN_PASSWORD_LEN
    ensures var mid := Run(t, ops);
            var (after, outcome) := Apply(mid, CommitPassword(id, t.rows[id].hash, password));
            && (outcome.Done? <==> HashKept(t, ops, id))
            && (outcome.Refused? ==> after == mid && outcome.error == WrongCurrentPassword)
            && (outcome.Done? ==> PasswordReplaced(mid, after, outcome, id))
  {
    HashAfterRun(t, ops, id);
    RunKeepsInv(t, ops);
  }

  // ---- the service -------------------------------------------------------------

  /** One database, shared by every service handle. */
  class UsersService {
    var table: Table

    constructor ()
      ensures table == Table(map[], 0, 0) && Inv(table)
    {
      table := Table(map[], 0, 0);
    }

    /** Transactions of other handles between two statements of one operation. */
    method Others() returns (ghost ops: seq<Op>)
      modifies this
      ensures table == Run(old(table), ops)
    {
      ops := [];
    }

    method SetupFirstUser(username: string, password: string, displayName: string)
      returns (outcome: Outcome, ghost ops: seq<Op>)
      requires Inv(table)
      modifies this
      ensures Inv(table)
      ensures outcome.Refused? ==> table == Run(old(table), ops)
      ensures outcome.Done? ==>
                && Run(old(table), ops).rows == map[]
                && (table, outcome) == Apply(Run(old(table), ops), Setup(username, password, displayName))
                && Created(Run(old(table), ops), table, outcome, username, displayName, Admin)
    {
      ops := [];
      if table.rows != map[] { return Refused(AlreadyInitialized), []; }
      match ValidateNew(username, password) {
        case Some(error) => return Refused(error), [];
        case None =>
      }
      ops := Others();
      RunKeepsInv(old(table), ops);
      if table.rows != map[] { return Refused(AlreadyInitialized), ops; }
      var user := User(Trim(username), table.nextHash, Trim(displayName), Admin, 0);
      outcome := Done(table.nextId, 0);
      table := Table(table.rows[table.nextId := user], table.nextId + 1, table.nextHash + 1);
    }

    /**
      `create_user`: the name is looked for in one statement and the row inserted in
      the next; what other handles insert in between is met by the unique index.
     */
    method CreateUser(username: string, password: string, displayName: string, role: Role)
      returns (outcome: Outcome, ghost ops: seq<Op>)
      requires Inv(table)
      modifies this
      ensures Inv(table)
      ensures outcome.Refused? ==> table == Run(old(table), ops)
      ensures outcome.Done? ==>
                && Created(Run(old(table), ops), table, outcome, username, displayName, role)
                && (table, outcome) == Apply(Run(old(table), ops), Create(username, password, displayName, role))
      ensures outcome.Done? <==>
                && ValidateNew(username, password).None?
                && !UsernameUsed(old(table), Trim(username)) && !UsernameUsed(Run(old(table), ops), Trim(username))
      ensures outcome == Refused(UsernameTaken) <==>
                ValidateNew(username, password).None? && UsernameUsed(old(table), Trim(username))
    {
      ops := [];
      hide ValidateNew;
      match ValidateNew(username, password) {
        case Some(error) => ValidateNewIff(username, password); return Refused(error), [];
        case None =>
      }
      if UsernameUsed(table, Trim(username)) { return Refused(UsernameTaken), []; }
      ops := Others();
      RunKeepsInv(old(table), ops);
      if UsernameUsed(table, Trim(username)) { return Refused(StorageError), ops; }
      CreateDoes(table, username, password, displayName, role);
      var user := User(Trim(username), table.nextHash, Trim(displayName), role, 0);
      outcome := Done(table.nextId, 0);
      table := Table(table.rows[table.nextId := user], table.nextId + 1, table.nextHash + 1);
    }

    method ResetPassword(id: nat, password: string) returns (outcome: Outcome)
      requires Inv(table)
      modifies this
      ensures Inv(table)
      ensures (table, outcome) == Apply(old(table), Reset(id, password))
      ensures outcome.Done? <==> |password| >= 8 && id in old(table).rows
      ensures outcome.Done? ==> PasswordReplaced(old(table), table, outcome, id)
    {
      ApplyKeepsInv(table, Reset(id, password));
      ResetDoes(table, id, password);
      if |password| < MIN_PASSWORD_LEN { return Refused(PasswordTooShort); }
      if id !in table.rows { return Refused(NotFound); }
      var user := table.rows[id].(hash := table.nextHash, epoch := table.rows[id].epoch + 1);
      table := table.(rows := table.rows[id := user], nextHash := table.nextHash + 1);
      outcome := Done(id, user.epoch);
    }

    method UpdateUser(id: nat, displayName: string, role: Role) returns (outcome: Outcome)
      requires Inv(table)
      modifies this
      ensures Inv(table)
      ensures (table, outcome) == Apply(old(table), Update(id, displayName, role))
      ensures outcome.Done? <==> id in old(table).rows && !(OnlyAdmin(old(table), id) && role != Admin)
      ensures outcome.Done? ==>
                && id in table.rows && OthersAsTheyWere(old(table), table, id)
                && table.rows[id].role == role && table.rows[id].displayName == Trim(displayName)
    {
      ApplyKeepsInv(table, Update(id, displayName, role));
      UpdateDoes(table, id, displayName, role);
      if id !in table.rows { return Refused(NotFound); }
      var user := table.rows[id];
      if user.role == Admin && role != Admin && |Admins(table)| <= 1 { return Refused(LastAdmin); }
      var bump := if user.role == role then 0 else 1;
      user := user.(displayName := Trim(displayName), role := role, epoch := user.epoch + bump);
      table := table.(rows := table.rows[id := user]);
      outcome := Done(id, user.epoch);
    }

    method DeleteUser(id: nat, acting: Option<nat>) returns (outcome: Outcome)
      requires Inv(table)
      modifies this
      ensures Inv(table)
      ensures (table, outcome) == Apply(old(table), Delete(id, acting))
      ensures outcome.Done? <==> acting != Some(id) && id in old(table).rows && !OnlyAdmin(old(table), id)
      ensures outcome.Done? ==> id !in table.rows && OthersAsTheyWere(old(table), table, id)
    {
      ApplyKeepsInv(table, Delete(id, acting));
      DeleteDoes(table, id, acting);
      if acting == Some(id) { return Refused(DeletesItself); }
      if id !in table.rows { return Refused(NotFound); }
      if table.rows[id].role == Admin && |Admins(table)| <= 1 { return Refused(LastAdmin); }
      outcome := Done(id, table.rows[id].epoch);
      table := table.(rows := table.rows - {id});
    }

    /**
      Read the hash, verify the current password against it, then compare and
      swap. Other handles may run anything in between; the change is made
      exactly if the verified hash is still the account's.
     */
    method ChangePassword(username: string, current: string, password: string, verify: (string, nat) -> bool)
      returns (outcome: Outcome, ghost ops: seq<Op>)
      requires Inv(table)
      modifies this
      ensures Inv(table)
      ensures outcome.Refused? ==> table == Run(old(table), ops)
      ensures outcome.Done? ==>
                && Found(old(table), username, outcome.id)
                && verify(current, old(table).rows[outcome.id].hash)
                && HashKept(old(table), ops, outcome.id)
                && outcome.id in Run(old(table), ops).rows
                && (table, outcome) == SetPassword(Run(old(table), ops), outcome.id)
                && PasswordReplaced(Run(old(table), ops), table, outcome, outcome.id)
      ensures forall id :: (Found(old(table), username, id) && verify(current, old(table).rows[id].hash)
                            && |password| >= MIN_PASSWORD_LEN && HashKept(old(table), ops, id)) ==> outcome.Done?
    {
      ops := [];
      if id :| id in table.rows && table.rows[id].username == username {
        var hash := table.rows[id].hash;
        if !verify(current, hash) { return Refused(WrongCurrentPassword), []; }
        if |password| < MIN_PASSWORD_LEN { return Refused(PasswordTooShort), []; }
        ops := Others();
        RunKeepsInv(old(table), ops);
        HashAfterRun(old(table), ops, id);
        if id in table.rows && table.rows[id].hash == hash {
          var user := table.rows[id].(hash := table.nextHash, epoch := table.rows[id].epoch + 1);
          table := table.(rows := table.rows[id := user], nextHash := table.nextHash + 1);
          outcome := Done(id, user.epoch);
        } else {
          outcome := Refused(WrongCurrentPassword);
        }
      } else {
        outcome := Refused(WrongCurrentPassword);
      }
    }
  }
}
