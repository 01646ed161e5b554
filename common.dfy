/** Shared vocabulary of the blog model: optional values, results,
    identifiers and the authenticated principal. */
module Common {

  datatype Option<T> = None | Some(value: T)

  datatype Result<T, E> = Ok(value: T) | Err(error: E)

  /** Every document id (users, posts, comments, categories) is one comparable type. */
  type Id = nat

  /** The user a request runs as, after authentication: its id and its role string. */
  datatype Principal = Principal(id: Id, role: string)

  predicate IsAdmin(p: Principal) {
    p.role == "admin"
  }

  /** No element occurs twice. */
  predicate NoDup<T(==)>(s: seq<T>) {
    forall i, j :: 0 <= i < j < |s| ==> s[i] != s[j]
  }
}
