/**
 * The avatar initials of the navigation bar (src/components/NavBar.tsx). Upper-casing is a
 * parameter `upper`, standing for `String.prototype.toUpperCase`.
 */
module NavBar {
  import opened Types

  /** `s.charAt(0) || ""`: the first character, or nothing. */
  function Lead(s: string): (r: string)
    ensures |r| <= 1
    ensures r == "" <==> s == ""
    ensures r != "" ==> r == [s[0]]
  {
    if |s| == 0 then "" else s[..1]
  }

  /** `initials`: empty without a user, else the upper-cased first letters of first and last name. */
  function Initials(user: Option<User>, upper: string -> string): (r: string)
    ensures user.None? ==> r == ""
    ensures user.Some? ==> exists p :: |p| <= 2 && r == upper(p)
    ensures user.Some? && user.value.firstName != "" && user.value.lastName != "" ==>
              r == upper([user.value.firstName[0], user.value.lastName[0]])
  {
    match user
    case None => ""
    case Some(u) =>
      assert u.firstName != "" && u.lastName != "" ==>
        Lead(u.firstName) + Lead(u.lastName) == [u.firstName[0], u.lastName[0]];
      upper(Lead(u.firstName) + Lead(u.lastName))
  }

  /** An empty name contributes nothing: only the other name's first character is upper-cased. */
  lemma EmptyNameContributesNothing(u: User, upper: string -> string)
    ensures u.firstName == "" && u.lastName != "" ==> Initials(Some(u), upper) == upper([u.lastName[0]])
    ensures u.lastName == "" && u.firstName != "" ==> Initials(Some(u), upper) == upper([u.firstName[0]])
    ensures u.firstName == "" && u.lastName == "" ==> Initials(Some(u), upper) == upper("")
    ensures u.firstName == "" && u.lastName == "" && upper("") == "" ==> Initials(Some(u), upper) == ""
  {
    assert Lead("") == "";
    assert "" + Lead(u.lastName) == Lead(u.lastName);
    assert Lead(u.firstName) + "" == Lead(u.firstName);
  }

  /** The initials see only each name's first character: users agreeing there get the same initials. */
  lemma InitialsDependOnFirstCharacters(u: User, v: User, upper: string -> string)
    requires (u.firstName == "") == (v.firstName == "") && (u.lastName == "") == (v.lastName == "")
    requires u.firstName != "" ==> u.firstName[0] == v.firstName[0]
    requires u.lastName != "" ==> u.lastName[0] == v.lastName[0]
    ensures Initials(Some(u), upper) == Initials(Some(v), upper)
  {
    assert Lead(u.firstName) == Lead(v.firstName);
    assert Lead(u.lastName) == Lead(v.lastName);
  }
}
