/** The `users` table: `id INTEGER PRIMARY KEY AUTOINCREMENT`, `name`,
    `email UNIQUE`, `password_hash`. The table is a map keyed by e-mail, so
    the UNIQUE constraint is the shape of the map itself; `nextId` is the
    AUTOINCREMENT counter, which never hands out an id twice. Lookups are
    `WHERE email = ?` with SQLite's default binary collation: exact,
    case-sensitive string equality. */
module Store {
  import opened JsText
  import Bcrypt

  /** One row (the `created_at` column is not modelled). */
  datatype User = User(id: nat, name: string, email: string, passwordHash: Bcrypt.Digest)

  class UserTable {
    var rows: map<string, User>
    var nextId: nat

    /** Every row is filed under its own e-mail, ids start at 1 and lie
        below the counter, and no two rows share an id. */
    ghost predicate Valid()
      reads this
    {
      && 1 <= nextId
      && (forall e :: e in rows ==> rows[e].email == e && 1 <= rows[e].id < nextId)
      && (forall e, e' :: e in rows && e' in rows && rows[e].id == rows[e'].id ==> e == e')
    }

    /** `CREATE TABLE IF NOT EXISTS users (...)` on a fresh database. */
    constructor ()
      ensures Valid() && rows == map[] && nextId == 1
    {
      rows := map[];
      nextId := 1;
    }

    /** `SELECT * FROM users WHERE email = ?`: the row with exactly this
        e-mail, if any. */
    function FindByEmail(email: string): (r: Option<User>)
      reads this
      requires Valid()
      ensures r.Some? <==> email in rows
      ensures r.Some? ==> r.value.email == email && r.value == rows[email]
    {
      if email in rows then Some(rows[email]) else None
    }

    /** `INSERT INTO users (name, email, password_hash) VALUES (?, ?, ?)`:
        the new row's id (`lastInsertRowid`), or `None` where the UNIQUE
        constraint makes SQLite reject the statement. On success exactly one
        row is added, under a fresh id, and every other row is as it was. */
    method Insert(name: string, email: string, hash: Bcrypt.Digest) returns (id: Option<nat>)
      requires Valid()
      modifies this
      ensures Valid()
      ensures email in old(rows) ==> id.None? && rows == old(rows) && nextId == old(nextId)
      ensures email !in old(rows) ==>
                && id == Some(old(nextId))
                && rows == old(rows)[email := User(old(nextId), name, email, hash)]
                && nextId == old(nextId) + 1
      ensures forall e :: e in old(rows) ==> e in rows && rows[e] == old(rows)[e]
      ensures id.Some? ==> forall e :: e in old(rows) ==> old(rows)[e].id != id.value
    {
      if email in rows {
        return None;
      }
      rows := rows[email := User(nextId, name, email, hash)];
      id := Some(nextId);
      nextId := nextId + 1;
    }
  }
}
