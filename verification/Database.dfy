/**
 * The two tables of the account store, the SQL statements that touch them, and
 * the meaning of every store call as one atomic change (internal/users/store.go).
 */
module Database {
  import opened Wrappers

  const ADMIN := "admin"
  const VIEWER := "viewer"

  /** A bcrypt hash: only what it was made from matters here. */
  datatype PwHash = PwHash(password: string, salt: int)

  datatype UserRow = UserRow(username: string, hash: PwHash, role: string, active: bool, createdAt: int)
  datatype SessionRow = SessionRow(userId: int, expiresAt: int)

  /** lastId is the AUTOINCREMENT high-water mark, which deletions never lower. */
  datatype Db = Db(users: map<int, UserRow>, sessions: map<string, SessionRow>, lastId: nat)

  datatype User = User(id: int, username: string, role: string, active: bool, createdAt: int)

  datatype Error = NotFound | UsernameTaken | LastAdmin | BadUsername | BadPassword | BadRole | Constraint

  /** A partial update: None leaves the column alone. */
  datatype Update = Update(role: Option<string>, active: Option<bool>, password: Option<string>)

  // ---------- rows and guards ----------

  function FoldChar(c: char): char {
    if 'A' <= c <= 'Z' then c - 'A' + 'a' else c
  }

  /** Case folding of the NOCASE collation: ASCII letters only. */
  function Fold(s: string): string {
    seq(|s|, i requires 0 <= i < |s| => FoldChar(s[i]))
  }

  /** The same ASCII letter in two cases. */
  predicate OtherCase(c: char, d: char) { 'A' <= c <= 'Z' && d as int == c as int + 32 }

  /** Names that differ at most in the case of ASCII letters. */
  predicate SameName(a: string, b: string) {
    |a| == |b| && forall i :: 0 <= i < |a| ==> a[i] == b[i] || OtherCase(a[i], b[i]) || OtherCase(b[i], a[i])
  }

  lemma FoldSame(a: string, b: string)
    ensures Fold(a) == Fold(b) <==> SameName(a, b)
  {
    if Fold(a) == Fold(b) {
      forall i | 0 <= i < |a| ensures a[i] == b[i] || OtherCase(a[i], b[i]) || OtherCase(b[i], a[i]) {
        assert Fold(a)[i] == Fold(b)[i];
      }
    }
  }

  predicate ValidRole(role: string) { role == ADMIN || role == VIEWER }

  predicate UsernameChar(c: char) {
    'A' <= c <= 'Z' || 'a' <= c <= 'z' || '0' <= c <= '9' || c == '.' || c == '_' || c == '-'
  }

  predicate GoodUsername(s: string) {
    3 <= |s| <= 32 && forall i :: 0 <= i < |s| ==> UsernameChar(s[i])
  }

  predicate GoodPassword(pw: string) { 8 <= |pw| <= 72 }

  /** bcrypt looks at the first 72 bytes only. */
  function Effective(pw: string): string { if |pw| <= 72 then pw else pw[..72] }

  predicate Matches(h: PwHash, pw: string) { h.password == Effective(pw) }

  predicate IsActiveAdmin(row: UserRow) { row.role == ADMIN && row.active }

  function ToUser(id: int, row: UserRow): User {
    User(id, row.username, row.role, row.active, row.createdAt)
  }

  function Patch(row: UserRow, upd: Update): UserRow {
    row.(role := if upd.role.Some? then upd.role.value else row.role,
         active := if upd.active.Some? then upd.active.value else row.active)
  }

  predicate LosesAdmin(cur: UserRow, next: UserRow) {
    IsActiveAdmin(cur) && !IsActiveAdmin(next)
  }

  // ---------- the schema as table invariants ----------

  ghost predicate Valid(db: Db) {
    && (forall id :: id in db.users ==> 1 <= id <= db.lastId)
    && (forall id :: id in db.users ==> ValidRole(db.users[id].role))
    && (forall i, j :: i in db.users && j in db.users && Fold(db.users[i].username) == Fold(db.users[j].username) ==>
          i == j)
    && (forall h :: h in db.sessions ==> db.sessions[h].userId in db.users)
  }

  ghost predicate HasAdmin(db: Db) {
    exists id :: id in db.users && IsActiveAdmin(db.users[id])
  }

  // ---------- single SQL statements ----------

  /** SELECT ... WHERE username = ? under NOCASE. */
  function NamedIds(db: Db, name: string): set<int> {
    set id | id in db.users && Fold(db.users[id].username) == Fold(name)
  }

  /** SELECT ... WHERE role = 'admin' AND active = 1 AND id != ? */
  function OtherAdmins(db: Db, id: int): set<int> {
    set i | i in db.users && i != id && IsActiveAdmin(db.users[i])
  }

  /** The account of that name: under UNIQUE there is at most one. */
  ghost function Account(users: map<int, UserRow>, name: string): (id: Option<int>)
    ensures id.Some? ==> id.value in users && Fold(users[id.value].username) == Fold(name)
    ensures id.None? ==> forall i :: i in users ==> Fold(users[i].username) != Fold(name)
  {
    if i :| i in users && Fold(users[i].username) == Fold(name) then Some(i) else None
  }

  function InsertUser(db: Db, row: UserRow): Db {
    db.(users := db.users[db.lastId + 1 := row], lastId := db.lastId + 1)
  }

  function SetRoleActive(db: Db, id: int, role: string, active: bool): Db {
    if id in db.users then db.(users := db.users[id := db.users[id].(role := role, active := active)]) else db
  }

  function SetHash(db: Db, id: int, hash: PwHash): Db {
    if id in db.users then db.(users := db.users[id := db.users[id].(hash := hash)]) else db
  }

  /** DELETE FROM sessions WHERE user_id = ? AND token_hash != ? */
  function DropSessionsExcept(db: Db, id: int, keep: string): Db {
    db.(sessions := map h | h in db.sessions && (db.sessions[h].userId != id || h == keep) :: db.sessions[h])
  }

  /** DELETE FROM users WHERE id = ?, cascading to the sessions of that user. */
  function DropUser(db: Db, id: int): Db {
    db.(users := db.users - {id},
        sessions := map h | h in db.sessions && db.sessions[h].userId != id :: db.sessions[h])
  }

  // ---------- store calls as atomic changes ----------

  /** A call of the store with the values it takes from outside: salts, clock readings and token hashes. */
  datatype Call =
    | CreateUser(username: string, password: string, newRole: string, salt: int, now: int)
    | UpdateUser(id: int, upd: Update, keep: string, salt: int)
    | DeleteUser(id: int)
    | Authenticate(username: string, password: string)
    | VerifyPassword(id: int, password: string)
    | CreateSession(hash: string, userId: int, expiresAt: int)
    | Resolve(hash: string, now: int)
    | DeleteSession(hash: string)
    | Purge(now: int)

  /** NoUser also answers a wrong password; Done confirms a right one. */
  datatype Reply = Failed(error: Error) | Found(user: User) | NoUser | Done

  /** The checks a call makes before it touches the database, in the order it makes them. */
  function Rejection(call: Call): Option<Error> {
    match call
    case CreateUser(username, password, role, _, _) =>
      if !GoodUsername(username) then Some(BadUsername)
      else if !ValidRole(role) then Some(BadRole)
      else if !GoodPassword(password) then Some(BadPassword)
      else None
    case UpdateUser(_, upd, _, _) =>
      if upd.role.Some? && !ValidRole(upd.role.value) then Some(BadRole)
      else if upd.password.Some? && !GoodPassword(upd.password.value) then Some(BadPassword)
      else None
    case _ => None
  }

  predicate Revokes(upd: Update, next: UserRow) { upd.password.Some? || !next.active }

  /** The row an accepted update leaves behind. */
  function Updated(row: UserRow, upd: Update, salt: int): UserRow {
    var next := Patch(row, upd);
    if upd.password.Some? then next.(hash := PwHash(upd.password.value, salt)) else next
  }

  predicate Resolves(db: Db, hash: string, now: int) {
    hash in db.sessions && db.sessions[hash].expiresAt > now
    && db.sessions[hash].userId in db.users && db.users[db.sessions[hash].userId].active
  }

  /** The account that a name, in any letter case, and a password open. */
  ghost function Authenticated(users: map<int, UserRow>, name: string, password: string): Reply {
    match Account(users, name)
    case None => NoUser
    case Some(id) =>
      if users[id].active && Matches(users[id].hash, password) then Found(ToUser(id, users[id])) else NoUser
  }

  ghost function Apply(db: Db, call: Call): (Db, Reply) {
    if Rejection(call).Some? then (db, Failed(Rejection(call).value))
    else match call
      case CreateUser(username, password, role, salt, now) =>
        if NamedIds(db, username) != {} then (db, Failed(UsernameTaken))
        else
          var row := UserRow(username, PwHash(password, salt), role, true, now);
          (Db(db.users[db.lastId + 1 := row], db.sessions, db.lastId + 1), Found(ToUser(db.lastId + 1, row)))
      case UpdateUser(id, upd, keep, salt) =>
        if id !in db.users then (db, Failed(NotFound))
        else
          var next := Updated(db.users[id], upd, salt);
          if LosesAdmin(db.users[id], next) && OtherAdmins(db, id) == {} then (db, Failed(LastAdmin))
          else
            (Db(db.users[id := next],
                map h | h in db.sessions && !(Revokes(upd, next) && db.sessions[h].userId == id && h != keep) ::
                  db.sessions[h],
                db.lastId),
             Found(ToUser(id, next)))
      case DeleteUser(id) =>
        if id !in db.users then (db, Failed(NotFound))
        else if IsActiveAdmin(db.users[id]) && OtherAdmins(db, id) == {} then (db, Failed(LastAdmin))
        else (DropUser(db, id), Done)
      case Authenticate(name, password) => (db, Authenticated(db.users, name, password))
      case VerifyPassword(id, password) =>
        (db, if id in db.users && Matches(db.users[id].hash, password) then Done else NoUser)
      case CreateSession(hash, userId, expiresAt) =>
        if hash in db.sessions || userId !in db.users then (db, Failed(Constraint))
        else (db.(sessions := db.sessions[hash := SessionRow(userId, expiresAt)]), Done)
      case Resolve(hash, now) =>
        if Resolves(db, hash, now) then
          (db, Found(ToUser(db.sessions[hash].userId, db.users[db.sessions[hash].userId])))
        else (db, NoUser)
      case DeleteSession(hash) => (db.(sessions := db.sessions - {hash}), Done)
      case Purge(now) =>
        (db.(sessions := map h | h in db.sessions && db.sessions[h].expiresAt > now :: db.sessions[h]), Done)
  }
}
