/** The login screen (app/login/page.jsx): the submitted email and password are looked
    up in a fixed table of three users, and a match leads to that user's area. */
module Login {
  import opened Wrappers

  datatype User = User(role: string, email: string, password: string, path: string)

  /** The predefined users. */
  const Users: seq<User> := [
    User("admin", "admin@example.com", "admin123", "/admin"),
    User("teacher", "teacher@example.com", "teacher123", "/teacher"),
    User("student", "student@example.com", "student123", "/student")
  ]

  predicate Matches(u: User, email: string, password: string)
  {
    u.email == email && u.password == password
  }

  /** `users.find`: the first entry whose email and password both match. */
  function Find(table: seq<User>, email: string, password: string): (r: Option<User>)
    ensures r.None? <==> forall i :: 0 <= i < |table| ==> !Matches(table[i], email, password)
    ensures r.Some? ==> exists i :: (0 <= i < |table| && table[i] == r.value && Matches(r.value, email, password)
      && forall j :: 0 <= j < i ==> !Matches(table[j], email, password))
  {
    if table == [] then None
    else if Matches(table[0], email, password) then Some(table[0])
    else
      var r := Find(table[1..], email, password);
      assert forall i :: 0 <= i < |table[1..]| ==> table[1..][i] == table[i + 1];
      r
  }

  /** What a submit leads to: navigation to a path, or the "invalid" message. */
  datatype Outcome = Navigate(path: string) | Invalid

  /** `handleSubmit`'s decision. */
  function Submit(email: string, password: string): Outcome
  {
    match Find(Users, email, password)
    case Some(u) => Navigate(u.path)
    case None => Invalid
  }

  /** The emails of the table are pairwise distinct. */
  lemma EmailsDistinct()
    ensures forall i, j :: 0 <= i < j < |Users| ==> Users[i].email != Users[j].email
  {
  }

  /** At most one entry can match a submission. */
  lemma AtMostOneMatch(email: string, password: string, i: nat, j: nat)
    requires i < |Users| && j < |Users|
    requires Matches(Users[i], email, password) && Matches(Users[j], email, password)
    ensures i == j
  {
    EmailsDistinct();
  }

  /** A submission leads to `path` exactly when some entry matches both the email and
      the password and that entry's path is `path`; it is rejected exactly when no
      entry matches both. */
  lemma SubmitIsLookup(email: string, password: string, path: string)
    ensures Submit(email, password) == Navigate(path) <==>
      exists i :: 0 <= i < |Users| && Matches(Users[i], email, password) && Users[i].path == path
    ensures Submit(email, password) == Invalid <==>
      forall i :: 0 <= i < |Users| ==> !Matches(Users[i], email, password)
  {
    var r := Find(Users, email, password);
    if r.Some? {
      var k :| 0 <= k < |Users| && Users[k] == r.value && Matches(r.value, email, password);
      forall i | 0 <= i < |Users| && Matches(Users[i], email, password)
        ensures Users[i] == r.value
      {
        AtMostOneMatch(email, password, i, k);
      }
    }
  }

  /** Each role's credentials lead to its own area; a wrong password leads nowhere. */
  lemma KnownLogins()
    ensures Submit("admin@example.com", "admin123") == Navigate("/admin")
    ensures Submit("teacher@example.com", "teacher123") == Navigate("/teacher")
    ensures Submit("student@example.com", "student123") == Navigate("/student")
    ensures Submit("admin@example.com", "teacher123") == Invalid
  {
    SubmitIsLookup("admin@example.com", "teacher123", "");
  }
}
