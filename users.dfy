/**
 * The saved users: the record the submit handler builds, the `splice(index, 1)` of an
 * individual delete, and the numbered blocks of the listing.
 */
module Users {
  import opened Wrappers
  import opened Text
  import opened EmailPattern
  import opened Validation

  /** One element of the list stored under the key "usuarios". */
  datatype User = User(nombre: string, email: string, edad: int)

  /** What every user saved through the form satisfies. */
  ghost predicate WellFormed(u: User) {
    && u.nombre != "" && Trim(u.nombre) == u.nombre
    && Trim(u.email) == u.email && MatchesEmailPattern(u.email)
    && u.edad >= 1
  }

  ghost predicate AllWellFormed(users: seq<User>) {
    forall k :: 0 <= k < |users| ==> WellFormed(users[k])
  }

  /** The stored value, absent or present, holds only well-formed users. */
  ghost predicate StoreWellFormed(store: Option<seq<User>>) {
    store.None? || AllWellFormed(store.value)
  }

  /**
   * The user the submit handler saves: the trimmed name and e-mail, and `parseInt` of
   * the trimmed age. The saved texts carry no surrounding white space.
   */
  function NewUser(inputs: FieldValues): (u: User)
    requires ParseInt(Trim(inputs.edad)).Some?
    ensures Trim(u.nombre) == u.nombre && Trim(u.email) == u.email
    ensures u.nombre == [] <==> AllWhitespace(inputs.nombre)
    ensures ParseInt(Trim(inputs.edad)) == Some(u.edad)
  {
    TrimIdempotent(inputs.nombre);
    TrimIdempotent(inputs.email);
    TrimEmptyIff(inputs.nombre);
    User(Trim(inputs.nombre), Trim(inputs.email), ParseInt(Trim(inputs.edad)).value)
  }

  /** A form that passed validation yields a well-formed user. */
  lemma NewUserWellFormed(inputs: FieldValues)
    requires FormValid(inputs)
    ensures ParseInt(Trim(inputs.edad)).Some?
    ensures WellFormed(NewUser(inputs))
  {
    TrimIdempotent(inputs.nombre);
    TrimIdempotent(inputs.email);
  }

  /** The list after `splice(i, 1)`: putting the removed user back at `i` restores the list. */
  function RemoveAt(users: seq<User>, i: nat): (r: seq<User>)
    requires i < |users|
    ensures |r| == |users| - 1
    ensures r[..i] + [users[i]] + r[i..] == users
  {
    users[..i] + users[i + 1..]
  }

  /**
   * Removing position `i` leaves one user fewer: those before `i` in place, those after
   * it moved up by one, and the same users otherwise.
   */
  lemma RemoveAtSpec(users: seq<User>, i: nat)
    requires i < |users|
    ensures |RemoveAt(users, i)| == |users| - 1
    ensures forall k :: 0 <= k < i ==> RemoveAt(users, i)[k] == users[k]
    ensures forall k :: i <= k < |users| - 1 ==> RemoveAt(users, i)[k] == users[k + 1]
    ensures multiset(RemoveAt(users, i)) + multiset{users[i]} == multiset(users)
  {
    assert users == users[..i] + [users[i]] + users[i + 1..];
  }

  /** Removing a user keeps every remaining user well formed. */
  lemma RemoveAtWellFormed(users: seq<User>, i: nat)
    requires i < |users| && AllWellFormed(users)
    ensures AllWellFormed(RemoveAt(users, i))
  {
  }

  /** One block of the listing: "Usuario #number", the user's fields, and the index its delete button carries. */
  datatype Entry = Entry(number: nat, user: User, deleteIndex: nat)

  /**
   * The listing of a list: block `k` is numbered `k + 1` and deletes position `k`. One
   * block per user, in list order and numbered from 1, and every block's delete button
   * addresses the user that block shows.
   */
  function Entries(users: seq<User>): (r: seq<Entry>)
    ensures |r| == |users|
    ensures forall k :: 0 <= k < |r| ==> r[k].deleteIndex < |users| && r[k].user == users[r[k].deleteIndex]
    ensures forall k :: 0 <= k < |r| ==> r[k].number == r[k].deleteIndex + 1
    ensures forall k :: 0 <= k < |r| ==> r[k].deleteIndex == k
  {
    seq(|users|, k requires 0 <= k < |users| => Entry(k + 1, users[k], k))
  }

  /** Builds the listing block by block, as the `forEach` of the display handler does. */
  method RenderListing(users: seq<User>) returns (entries: seq<Entry>)
    ensures entries == Entries(users)
  {
    entries := [];
    for index := 0 to |users|
      invariant |entries| == index
      invariant forall k :: 0 <= k < index ==> entries[k] == Entry(k + 1, users[k], k)
    {
      var numero := index + 1;
      entries := entries + [Entry(numero, users[index], index)];
    }
  }

  /**
   * Pressing the delete button of block `k` removes exactly the user that block shows,
   * and the listing drawn afterwards moves every later user up one place and one number.
   */
  lemma DeleteFromListing(users: seq<User>, k: nat)
    requires k < |users|
    ensures Entries(users)[k].deleteIndex == k && Entries(users)[k].user == users[k]
    ensures RemoveAt(users, Entries(users)[k].deleteIndex) == users[..k] + users[k + 1..]
    ensures |Entries(RemoveAt(users, k))| == |users| - 1
    ensures forall j :: 0 <= j < k ==> Entries(RemoveAt(users, k))[j] == Entries(users)[j]
    ensures forall j :: k <= j < |users| - 1 ==>
              Entries(RemoveAt(users, k))[j]
              == Entry(Entries(users)[j + 1].number - 1, Entries(users)[j + 1].user, j)
  {
  }
}
