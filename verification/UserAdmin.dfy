/** User administration: services/users.go (Create, Update, Delete), UpdateProfile of
    services/auth.go and the queries of repositories/users.go they use. Every call is one step.

    strings.ToLower, the syntax check of e-mail addresses and the password rules are functions of
    the configuration. Passwords themselves are not part of the rows. */
module UserAdmin {
  import opened OptionType
  import opened GoStrings
  import ApiTokens

  const DEFAULT_ROLE := "user"

  datatype User = User(email: string, emailVerified: Option<int>, name: Option<string>, role: string, disabledAt: Option<int>)

  type Table = map<nat, User>

  datatype Config = Config(lower: string -> string, validEmail: string -> bool, goodPassword: string -> bool,
                           roles: seq<string>, managementRoles: seq<string>)
  {
    function NormalizeEmail(email: string): string {
      lower(TrimSpace(email))
    }

    predicate RoleAllowed(role: string) {
      |roles| == 0 || role in roles
    }

    predicate Admin(user: User) {
      user.role in managementRoles && user.disabledAt.None?
    }

    /** The first configured role that manages nobody, "user" if there is none. */
    function DefaultRole(): string {
      FirstPlain(roles)
    }

    function FirstPlain(rs: seq<string>): string {
      if rs == [] then DEFAULT_ROLE else if rs[0] !in managementRoles then rs[0] else FirstPlain(rs[1..])
    }
  }

  /** The default role is a management role only if no configured role is plain and "user" itself
      was configured to manage; the code's own claim that it never is needs this exception. */
  lemma {:induction false} DefaultRoleIsPlain(config: Config, rs: seq<string>)
    ensures config.FirstPlain(rs) in config.managementRoles <==>
      DEFAULT_ROLE in config.managementRoles && forall i :: 0 <= i < |rs| ==> rs[i] in config.managementRoles
  {
    if rs != [] {
      DefaultRoleIsPlain(config, rs[1..]);
      assert forall i :: 1 <= i < |rs| ==> rs[i] == rs[1..][i - 1];
    }
  }

  /** It is the first of the configured roles that manages nobody, wherever that stands. */
  lemma {:induction false} DefaultRoleIsFirst(config: Config, rs: seq<string>, k: nat)
    requires k <= |rs| && forall i :: 0 <= i < k ==> rs[i] in config.managementRoles
    requires k < |rs| ==> rs[k] !in config.managementRoles
    ensures config.FirstPlain(rs) == if k < |rs| then rs[k] else DEFAULT_ROLE
  {
    if k > 0 {
      DefaultRoleIsFirst(config, rs[1..], k - 1);
    }
  }

  /** The active holders of a management role. */
  function Admins(config: Config, rows: Table): set<nat> {
    set id | id in rows && config.Admin(rows[id])
  }

  // ---------------------------------------------------------------- the calls

  datatype Call =
    | Create(newId: nat, email: string, name: string, password: string, role: string)
    | Update(id: nat, email: string, name: string, role: string, disabled: Option<bool>, actor: Option<nat>, now: int)
    | Delete(id: nat)
    | UpdateProfile(id: nat, email: string, name: string)

  datatype Answer = Done(id: nat) | Unchanged | Invalid | NotFound | AlreadyExists | LastAdmin | Unauthorized

  function NamePointer(name: string): Option<string> {
    if name != "" then Some(name) else None
  }

  /** The row an update writes, its inputs normalised. */
  function Edited(user: User, email: string, name: string, role: string, disabled: Option<bool>, now: int): User {
    User(email, user.emailVerified, NamePointer(name), if role != "" then role else user.role,
         if disabled == Some(true) then (if user.disabledAt.None? then Some(now) else user.disabledAt)
         else if disabled == Some(false) then None else user.disabledAt)
  }

  /** An active administrator is being disabled or demoted. */
  predicate StepsDown(config: Config, user: User, role: string, disabled: Option<bool>) {
    config.Admin(user) && (disabled == Some(true) || (role != "" && role !in config.managementRoles))
  }

  predicate Taken(rows: Table, email: string, id: nat) {
    exists other :: other in rows && other != id && rows[other].email == email
  }

  class Users {
    var rows: Table

    constructor (rows: Table)
      ensures this.rows == rows
    {
      this.rows := rows;
    }

    method FindByEmail(email: string) returns (found: Option<nat>)
      ensures found.Some? ==> found.value in rows && rows[found.value].email == email
      ensures found.None? ==> forall id :: id in rows ==> rows[id].email != email
    {
      if exists id :: id in rows && rows[id].email == email {
        var id :| id in rows && rows[id].email == email;
        found := Some(id);
      } else {
        found := None;
      }
    }

    method CountActiveByRolesExcluding(roles: seq<string>, exclude: nat) returns (count: nat)
      ensures count == |set id | id in rows && rows[id].role in roles && rows[id].disabledAt.None? && id != exclude|
    {
      var matching := set id | id in rows && rows[id].role in roles && rows[id].disabledAt.None? && id != exclude;
      if |roles| == 0 {
        count := 0;
        assert matching == {};
      } else {
        count := |matching|;
      }
    }

    method Save(id: nat, user: User)
      modifies this
      ensures rows == old(rows)[id := user]
    {
      rows := rows[id := user];
    }

    method Remove(id: nat)
      modifies this
      ensures rows == old(rows) - {id}
    {
      rows := rows - {id};
    }
  }

  /** The e-mail index of a table in use is unique. */
  ghost predicate EmailsDistinct(rows: Table) {
    forall i, j :: i in rows && j in rows && rows[i].email == rows[j].email ==> i == j
  }

  ghost predicate EmailsNormal(config: Config, rows: Table) {
    forall id :: id in rows ==> exists raw :: rows[id].email == config.NormalizeEmail(raw)
  }

  /** What a call does to the table and answers. */
  function After(config: Config, rows: Table, call: Call): (Table, Answer)
    requires call.Create? ==> call.newId !in rows
  {
    match call
    case Create(id, rawEmail, rawName, password, rawRole) =>
      var email, name := config.NormalizeEmail(rawEmail), TrimSpace(rawName);
      var role := if TrimSpace(rawRole) == "" then config.DefaultRole() else TrimSpace(rawRole);
      if !config.validEmail(email) || !config.goodPassword(password) || !config.RoleAllowed(role) then (rows, Invalid)
      else if Taken(rows, email, id) then (rows, AlreadyExists)
      else (rows[id := User(email, None, NamePointer(name), role, None)], Done(id))
    case Update(id, rawEmail, rawName, rawRole, disabled, actor, now) =>
      if id !in rows then (rows, NotFound)
      else
        var email, name, role := config.NormalizeEmail(rawEmail), TrimSpace(rawName), TrimSpace(rawRole);
        var user := rows[id];
        var stepsDown := StepsDown(config, user, role, disabled);
        if !config.validEmail(email) || (role != "" && !config.RoleAllowed(role)) then (rows, Invalid)
        else if stepsDown && disabled == Some(true) && actor == Some(id) then (rows, Invalid)
        else if stepsDown && Admins(config, rows) - {id} == {} then (rows, LastAdmin)
        else if email != user.email && Taken(rows, email, id) then (rows, AlreadyExists)
        else (rows[id := Edited(user, email, name, role, disabled, now)], Done(id))
    case Delete(id) =>
      if id !in rows then (rows, NotFound)
      else if rows[id].role in config.managementRoles && Admins(config, rows) - {id} == {} then (rows, LastAdmin)
      else if |config.managementRoles| == 0 && |rows| <= 1 then (rows, LastAdmin)
      else (rows - {id}, Done(id))
    case UpdateProfile(id, rawEmail, rawName) =>
      if id !in rows then (rows, Unauthorized)
      else
        var email, name := config.NormalizeEmail(rawEmail), TrimSpace(rawName);
        var user := rows[id];
        var currentName := if user.name.Some? then user.name.value else "";
        if !config.validEmail(email) then (rows, Invalid)
        else if email == user.email && name == currentName then (rows, Unchanged)
        else if email != user.email && Taken(rows, email, id) then (rows, AlreadyExists)
        else
          (rows[id := user.(email := email, name := NamePointer(name),
                            emailVerified := if email != user.email then None else user.emailVerified)], Done(id))
  }

  class Service {
    const users: Users
    const config: Config
    const apiTokens: ApiTokens.Service?

    constructor (users: Users, config: Config, apiTokens: ApiTokens.Service?)
      ensures this.users == users && this.config == config && this.apiTokens == apiTokens
    {
      this.users, this.config, this.apiTokens := users, config, apiTokens;
    }

    /** What the service may write besides the users table. */
    ghost function TokenTable(): set<object> {
      if apiTokens == null then {} else {apiTokens.repo}
    }

    /** The API tokens of the user were all revoked at the instant, or none was touched. */
    twostate predicate TokensRevoked(id: nat, revoked: bool, at: int)
      reads TokenTable()
    {
      apiTokens != null ==>
        apiTokens.repo.rows ==
          if revoked then ApiTokens.AllRevoked(old(apiTokens.repo.rows), id, at) else old(apiTokens.repo.rows)
    }

    method IsManagementRole(role: string) returns (manages: bool)
      ensures manages <==> role in config.managementRoles
    {
      for i := 0 to |config.managementRoles|
        invariant role !in config.managementRoles[..i]
      {
        if config.managementRoles[i] == role {
          return true;
        }
      }
      manages := false;
    }

    method RoleAllowed(role: string) returns (allowed: bool)
      ensures allowed <==> config.RoleAllowed(role)
    {
      if |config.roles| == 0 {
        return true;
      }
      for i := 0 to |config.roles|
        invariant role !in config.roles[..i]
      {
        if config.roles[i] == role {
          return true;
        }
      }
      allowed := false;
    }

    method DefaultRole() returns (role: string)
      ensures role == config.DefaultRole()
    {
      for i := 0 to |config.roles|
        invariant config.DefaultRole() == config.FirstPlain(config.roles[i..])
      {
        assert config.roles[i..][1..] == config.roles[i + 1..];
        var management := IsManagementRole(config.roles[i]);
        if !management {
          return config.roles[i];
        }
      }
      role := DEFAULT_ROLE;
    }

    method Create(id: nat, rawEmail: string, rawName: string, password: string, rawRole: string) returns (answer: Answer)
      requires id !in users.rows
      modifies users
      ensures (users.rows, answer) == After(config, old(users.rows), Call.Create(id, rawEmail, rawName, password, rawRole))
    {
      var email, name, role := config.NormalizeEmail(rawEmail), TrimSpace(rawName), TrimSpace(rawRole);
      if !config.validEmail(email) {
        return Invalid;
      }
      if !config.goodPassword(password) {
        return Invalid;
      }
      if role == "" {
        role := DefaultRole();
      }
      var allowed := RoleAllowed(role);
      if !allowed {
        return Invalid;
      }
      var existing := users.FindByEmail(email);
      if existing.Some? {
        return AlreadyExists;
      }
      users.Save(id, User(email, None, NamePointer(name), role, None));
      answer := Done(id);
    }

    /** The guard in the middle of Update. */
    method GuardLastAdmin(id: nat, u: User, role: string, disabled: Option<bool>, actor: Option<nat>) returns (fault: Option<Answer>)
      ensures fault ==
        if !StepsDown(config, u, role, disabled) then None
        else if disabled == Some(true) && actor == Some(id) then Some(Invalid)
        else if Admins(config, users.rows) - {id} == {} then Some(LastAdmin)
        else None
    {
      fault := None;
      var management := IsManagementRole(u.role);
      if management && u.disabledAt.None? {
        var keeps := IsManagementRole(role);
        var disabling, demoting := disabled == Some(true), role != "" && !keeps;
        if disabling || demoting {
          if disabling && actor.Some? && actor.value == id {
            return Some(Invalid);
          }
          var others := users.CountActiveByRolesExcluding(config.managementRoles, id);
          OthersAreAdmins(config, users.rows, id);
          if others == 0 {
            return Some(LastAdmin);
          }
        }
      }
    }

    /** `revokedAt` is the clock reading of the token service. */
    method Update(id: nat, rawEmail: string, rawName: string, rawRole: string, disabled: Option<bool>, actor: Option<nat>, now: int,
                  revokedAt: int)
      returns (answer: Answer)
      requires EmailsDistinct(users.rows)
      modifies users, TokenTable()
      ensures TokensRevoked(id, answer.Done? && disabled == Some(true), revokedAt)
      ensures (users.rows, answer) ==
        After(config, old(users.rows), Call.Update(id, rawEmail, rawName, rawRole, disabled, actor, now))
    {
      hide TrimSpace, Admins, ApiTokens.AllRevoked, ApiTokens.ActiveOf;
      if id !in users.rows {
        return NotFound;
      }
      var u := users.rows[id];
      var email, name, role := config.NormalizeEmail(rawEmail), TrimSpace(rawName), TrimSpace(rawRole);
      if !config.validEmail(email) {
        return Invalid;
      }
      if role != "" {
        var allowed := RoleAllowed(role);
        if !allowed {
          return Invalid;
        }
      }
      var fault := GuardLastAdmin(id, u, role, disabled, actor);
      if fault.Some? {
        return fault.value;
      }
      if email != u.email {
        var other := users.FindByEmail(email);
        if other.Some? && other.value != id {
          assert Taken(users.rows, email, id);
          return AlreadyExists;
        }
      }
      u := u.(email := email, name := if name != "" then Some(name) else None);
      if role != "" {
        u := u.(role := role);
      }
      if disabled == Some(true) && u.disabledAt.None? {
        u := u.(disabledAt := Some(now));
      } else if disabled == Some(false) {
        u := u.(disabledAt := None);
      }
      assert u == Edited(users.rows[id], email, name, role, disabled, now);
      users.Save(id, u);
      if disabled == Some(true) && apiTokens != null {
        apiTokens.RevokeAll(id, revokedAt);
      }
      answer := Done(id);
    }

    method Delete(id: nat, revokedAt: int) returns (answer: Answer)
      modifies users, TokenTable()
      ensures TokensRevoked(id, answer.Done?, revokedAt)
      ensures (users.rows, answer) == After(config, old(users.rows), Call.Delete(id))
    {
      if id !in users.rows {
        return NotFound;
      }
      var management := IsManagementRole(users.rows[id].role);
      if management {
        var others := users.CountActiveByRolesExcluding(config.managementRoles, id);
        OthersAreAdmins(config, users.rows, id);
        if others == 0 {
          return LastAdmin;
        }
      } else if |config.managementRoles| == 0 {
        if |users.rows| <= 1 {
          return LastAdmin;
        }
      }
      users.Remove(id);
      if apiTokens != null {
        apiTokens.RevokeAll(id, revokedAt);
      }
      answer := Done(id);
    }

    method UpdateProfile(id: nat, rawEmail: string, rawName: string) returns (answer: Answer)
      requires EmailsDistinct(users.rows)
      modifies users
      ensures (users.rows, answer) == After(config, old(users.rows), Call.UpdateProfile(id, rawEmail, rawName))
    {
      if id !in users.rows {
        return Unauthorized;
      }
      var user := users.rows[id];
      var email, name := config.NormalizeEmail(rawEmail), TrimSpace(rawName);
      if !config.validEmail(email) {
        return Invalid;
      }
      var currentName := if user.name.Some? then user.name.value else "";
      var emailChanged, nameChanged := email != user.email, name != currentName;
      if !emailChanged && !nameChanged {
        return Unchanged;
      }
      if emailChanged {
        var other := users.FindByEmail(email);
        if other.Some? && other.value != id {
          return AlreadyExists;
        }
        user := user.(email := email, emailVerified := None);
      }
      user := user.(name := if name != "" then Some(name) else None);
      users.Save(id, user);
      answer := Done(id);
    }
  }

  lemma OthersAreAdmins(config: Config, rows: Table, id: nat)
    ensures (set i | i in rows && rows[i].role in config.managementRoles && rows[i].disabledAt.None? && i != id)
      == Admins(config, rows) - {id}
  {
  }

  // ---------------------------------------------------------------- never without an administrator

  /** The table that the call would leave behind if the guards of the last administrator were not
      there. */
  function Unguarded(config: Config, rows: Table, call: Call): Table
    requires (call.Update? || call.Delete?) && call.id in rows
  {
    if call.Delete? then rows - {call.id}
    else rows[call.id := Edited(rows[call.id], config.NormalizeEmail(call.email), TrimSpace(call.name),
                                TrimSpace(call.role), call.disabled, call.now)]
  }

  /** What Update checks before it looks at the other administrators. */
  predicate PastOwnChecks(config: Config, rows: Table, call: Call)
    requires call.Update?
  {
    var role := TrimSpace(call.role);
    && call.id in rows && config.validEmail(config.NormalizeEmail(call.email))
    && (role != "" ==> config.RoleAllowed(role))
    && !(config.Admin(rows[call.id]) && call.disabled == Some(true) && call.actor == Some(call.id))
  }

  /** Main result: from a table with an active administrator, an update that passes its own checks
      is refused for the last administrator exactly when it would leave none. */
  lemma UpdateRefusedExactly(config: Config, rows: Table, call: Call)
    requires call.Update? && PastOwnChecks(config, rows, call) && Admins(config, rows) != {}
    ensures After(config, rows, call).1 == LastAdmin <==> Admins(config, Unguarded(config, rows, call)) == {}
  {
  }

  /** Main result: from such a table, a delete is refused for the last administrator exactly when it
      would leave none. Without management roles there are no administrators, and the guard is the
      one of the last user. */
  lemma DeleteRefusedExactly(config: Config, rows: Table, id: nat)
    requires id in rows
    ensures Admins(config, rows) != {} ==>
      (After(config, rows, Delete(id)).1 == LastAdmin <==> Admins(config, Unguarded(config, rows, Delete(id))) == {})
    ensures config.managementRoles == [] ==>
      (After(config, rows, Delete(id)).1 == LastAdmin <==> Unguarded(config, rows, Delete(id)) == map[])
  {
    var after := Unguarded(config, rows, Delete(id));
    assert Admins(config, after) == Admins(config, rows) - {id};
    assert rows.Keys == after.Keys + {id};
    if config.managementRoles == [] {
      assert |after.Keys| == |rows| - 1;
      assert after == map[] <==> after.Keys == {};
    }
  }

  /** A call that could have left no administrator, and no other, is what the guards stop. */
  lemma StepKeepsAdmin(config: Config, rows: Table, call: Call)
    requires call.Create? ==> call.newId !in rows
    requires Admins(config, rows) != {}
    ensures Admins(config, After(config, rows, call).0) != {}
  {
  }

  /** A call touches the row it names and no other; a profile change leaves role and lock alone and
      keeps an address verified only if it is the same address. */
  lemma OthersUntouched(config: Config, rows: Table, call: Call, other: nat)
    requires call.Create? ==> call.newId !in rows
    requires other != if call.Create? then call.newId else call.id
    ensures
      var rows' := After(config, rows, call).0;
      && (other in rows' <==> other in rows) && (other in rows ==> rows'[other] == rows[other])
      && (call.UpdateProfile? && call.id in rows ==>
            && call.id in rows' && rows'[call.id].role == rows[call.id].role && rows'[call.id].disabledAt == rows[call.id].disabledAt
            && rows'[call.id].emailVerified ==
                 if rows'[call.id].email == rows[call.id].email then rows[call.id].emailVerified else None)
  {
  }

  // ---------------------------------------------------------------- what a call that is done has done

  /** No other row has the address. */
  ghost predicate Free(rows: Table, email: string, id: nat) {
    forall other :: other in rows && other != id ==> rows[other].email != email
  }

  /** Main result: what a creation answers and leaves: a new enabled user with the normalised address,
      the trimmed name, and the role asked for or else the first configured one that manages nobody. */
  lemma CreateDone(config: Config, rows: Table, call: Call)
    requires call.Create? && call.newId !in rows
    ensures
      var (rows', answer) := After(config, rows, call);
      var email := config.lower(TrimSpace(call.email));
      var role := if TrimSpace(call.role) == "" then config.DefaultRole() else TrimSpace(call.role);
      var fit := config.validEmail(email) && config.goodPassword(call.password) && (config.roles == [] || role in config.roles);
      && (answer == Invalid <==> !fit)
      && (answer == AlreadyExists <==> fit && !Free(rows, email, call.newId))
      && (answer == Done(call.newId) <==> fit && Free(rows, email, call.newId))
      && (answer == Done(call.newId) ==>
            && call.newId in rows' && rows'.Keys == rows.Keys + {call.newId}
            && var user := rows'[call.newId];
               && user.email == email && user.role == role && user.disabledAt.None? && user.emailVerified.None?
               && user.name == (if TrimSpace(call.name) == "" then None else Some(TrimSpace(call.name))))
      && (answer != Done(call.newId) ==> rows' == rows)
  {
    hide TrimSpace, Config.FirstPlain;
  }

  /** Main result: what an update leaves when it is done: the normalised address and trimmed name, the
      role asked for if one was, and the lock as asked for, with the time of an earlier lock kept. */
  lemma UpdateDone(config: Config, rows: Table, call: Call)
    requires call.Update?
    ensures
      var (rows', answer) := After(config, rows, call);
      && (answer == NotFound <==> call.id !in rows)
      && (answer.Done? ==>
            && answer.id == call.id && call.id in rows && rows'.Keys == rows.Keys
            && var old', new' := rows[call.id], rows'[call.id];
               && new'.email == config.lower(TrimSpace(call.email)) && new'.emailVerified == old'.emailVerified
               && new'.name == (if TrimSpace(call.name) == "" then None else Some(TrimSpace(call.name)))
               && new'.role == (if TrimSpace(call.role) == "" then old'.role else TrimSpace(call.role))
               && (call.disabled == Some(true) ==>
                     new'.disabledAt == if old'.disabledAt.Some? then old'.disabledAt else Some(call.now))
               && (call.disabled == Some(false) ==> new'.disabledAt.None?)
               && (call.disabled.None? ==> new'.disabledAt == old'.disabledAt))
      && (!answer.Done? ==> rows' == rows)
  {
    hide TrimSpace, Admins;
  }

  /** Main result: when an update is refused, and for what; past these it is done. */
  lemma UpdateAnswers(config: Config, rows: Table, call: Call)
    requires call.Update? && call.id in rows
    ensures
      var answer := After(config, rows, call).1;
      var email, role, user := config.lower(TrimSpace(call.email)), TrimSpace(call.role), rows[call.id];
      var fit := config.validEmail(email) && (role == "" || config.roles == [] || role in config.roles);
      var manages := user.role in config.managementRoles && user.disabledAt.None?;
      var leaves := manages && (call.disabled == Some(true) || (role != "" && role !in config.managementRoles));
      var himself := manages && call.disabled == Some(true) && call.actor == Some(call.id);
      var last := leaves && forall other :: other in rows && other != call.id ==>
                    !(rows[other].role in config.managementRoles && rows[other].disabledAt.None?);
      && (answer == Invalid <==> !fit || himself)
      && (answer == LastAdmin <==> fit && !himself && last)
      && (answer == AlreadyExists <==> fit && !himself && !last && email != user.email && !Free(rows, email, call.id))
      && (answer == Done(call.id) <==> fit && !himself && !last && (email == user.email || Free(rows, email, call.id)))
  {
    hide TrimSpace;
    assert (forall other :: other in rows && other != call.id ==>
              !(rows[other].role in config.managementRoles && rows[other].disabledAt.None?))
      <==> Admins(config, rows) - {call.id} == {} by { NoOtherAdmin(config, rows, call.id); }
    hide Admins;
  }

  lemma NoOtherAdmin(config: Config, rows: Table, id: nat)
    ensures (forall other :: other in rows && other != id ==>
               !(rows[other].role in config.managementRoles && rows[other].disabledAt.None?))
      <==> Admins(config, rows) - {id} == {}
  {
    forall other | other in rows && other != id
      ensures other in Admins(config, rows) - {id} <==> rows[other].role in config.managementRoles && rows[other].disabledAt.None?
    {
    }
    if Admins(config, rows) - {id} != {} {
      var other :| other in Admins(config, rows) - {id};
      assert other in rows && other != id;
    }
  }

  /** Main result: a deletion that is done has removed the user and nobody else, and it is done unless
      he is unknown or a guard of the last administrator or user refuses. */
  lemma DeleteDone(config: Config, rows: Table, id: nat)
    ensures
      var (rows', answer) := After(config, rows, Delete(id));
      && (answer == NotFound <==> id !in rows)
      && (answer == Done(id) || answer == NotFound || answer == LastAdmin)
      && (answer == Done(id) ==>
            id !in rows' && rows'.Keys == rows.Keys - {id} && forall other :: other in rows' ==> rows'[other] == rows[other])
      && (answer != Done(id) ==> rows' == rows)
  {
  }

  /** Main result: what a profile change answers and leaves. */
  lemma ProfileDone(config: Config, rows: Table, call: Call)
    requires call.UpdateProfile?
    ensures
      var (rows', answer) := After(config, rows, call);
      var email, name := config.lower(TrimSpace(call.email)), TrimSpace(call.name);
      && (answer == Unauthorized <==> call.id !in rows)
      && (call.id in rows ==>
            var same := rows[call.id].email == email && (rows[call.id].name == Some(name) || (name == "" && rows[call.id].name.None?));
            && (answer == Invalid <==> !config.validEmail(email))
            && (answer == Unchanged <==> config.validEmail(email) && same)
            && (answer == AlreadyExists <==>
                  config.validEmail(email) && !same && email != rows[call.id].email && !Free(rows, email, call.id))
            && (answer == Done(call.id) <==>
                  config.validEmail(email) && !same && (email == rows[call.id].email || Free(rows, email, call.id))))
      && (answer.Done? ==>
            && call.id in rows' && rows'.Keys == rows.Keys
            && rows'[call.id].email == email && rows'[call.id].name == (if name == "" then None else Some(name)))
      && (!answer.Done? ==> rows' == rows)
  {
    hide TrimSpace, Admins;
  }

  // ---------------------------------------------------------------- runs

  ghost predicate IsRun(config: Config, trace: seq<Table>, calls: seq<Call>) {
    && |trace| == |calls| + 1
    && forall i :: 0 <= i < |calls| ==>
         (calls[i].Create? ==> calls[i].newId !in trace[i]) && trace[i + 1] == After(config, trace[i], calls[i]).0
  }

  /** Main result: no run of creations, updates, deletions and profile changes ever leaves the table
      without an active administrator. */
  lemma {:induction false} AlwaysAnAdmin(config: Config, trace: seq<Table>, calls: seq<Call>, k: nat)
    requires IsRun(config, trace, calls) && k < |trace|
    requires Admins(config, trace[0]) != {}
    ensures Admins(config, trace[k]) != {}
  {
    hide After, Admins;
    if k > 0 {
      AlwaysAnAdmin(config, trace, calls, k - 1);
      StepKeepsAdmin(config, trace[k - 1], calls[k - 1]);
    }
  }

  /** What a call does to addresses: at most one row gets one, normalised and not taken. */
  lemma AddressStep(config: Config, rows: Table, call: Call)
    requires call.Create? ==> call.newId !in rows
    ensures
      var rows' := After(config, rows, call).0;
      var id := if call.Create? then call.newId else call.id;
      && (forall other :: other in rows' && other != id ==> other in rows && rows'[other] == rows[other])
      && (id in rows' && !(id in rows && rows'[id].email == rows[id].email) ==>
            !call.Delete? && rows'[id].email == config.NormalizeEmail(call.email) && !Taken(rows, rows'[id].email, id))
  {
    hide TrimSpace, Admins;
  }

  lemma StepKeepsEmails(config: Config, rows: Table, call: Call)
    requires call.Create? ==> call.newId !in rows
    requires EmailsDistinct(rows) && EmailsNormal(config, rows)
    ensures EmailsDistinct(After(config, rows, call).0) && EmailsNormal(config, After(config, rows, call).0)
  {
    AddressStep(config, rows, call);
    hide After, Config.NormalizeEmail;
    var rows' := After(config, rows, call).0;
    forall id | id in rows' ensures exists raw :: rows'[id].email == config.NormalizeEmail(raw) {
      if id in rows && rows'[id].email == rows[id].email {
      } else {
        assert rows'[id].email == config.NormalizeEmail(call.email);
      }
    }
  }

  /** Main result: addresses stay normalised and pairwise distinct through every such run. */
  lemma {:induction false} EmailsStayUnique(config: Config, trace: seq<Table>, calls: seq<Call>, k: nat)
    requires IsRun(config, trace, calls) && k < |trace|
    requires EmailsDistinct(trace[0]) && EmailsNormal(config, trace[0])
    ensures EmailsDistinct(trace[k]) && EmailsNormal(config, trace[k])
  {
    hide After, EmailsDistinct, EmailsNormal;
    if k > 0 {
      EmailsStayUnique(config, trace, calls, k - 1);
      StepKeepsEmails(config, trace[k - 1], calls[k - 1]);
    }
  }
}
