/** The user records the migration scripts read from users.json and the
    client scripts keep in localStorage under 'usersList'. Every field is
    `undefined` (None) when the record does not have it. */
module UserRecords {
  import opened Js

  datatype UserRecord = UserRecord(
    userId: Option<string>,
    user_id: Option<string>,
    user: Option<string>,
    username: Option<string>,
    email: Option<string>,
    pass: Option<string>,
    password: Option<string>,
    createdAt: Option<string>,
    created_at: Option<string>,
    role: Option<string>)
}
