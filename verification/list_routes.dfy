/*
 * The list routes (backend/routes/lists.js): a signed-in user's list names,
 * kept on the user document as a sequence in insertion order. The file is
 * not mounted by backend/server.js (lines 91-93 mount only the auth, task
 * and notification routers), so these handlers are modelled as the file
 * defines them.
 */
module ListRoutes {
  import opened Base
  import opened ServerModel

  datatype Reply =
    | Unauthorized
    | Lists(lists: seq<string>)
    | NameRequired
    | UserNotFound
    | AlreadyExists
    | Added(lists: seq<string>)
    | Removed(lists: seq<string>)
    | ListNotFound

  function Status(r: Reply): int {
    match r
    case Unauthorized => 401
    case Lists(_) => 200
    case NameRequired => 400
    case UserNotFound => 404
    case AlreadyExists => 409
    case Added(_) => 201
    case Removed(_) => 200
    case ListNotFound => 404
  }

  datatype Outcome = Outcome(reply: Reply, users: seq<User>)

  function Other(name: string): string -> bool {
    (l: string) => l != name
  }

  /** GET /: User.findById, then the user's lists. */
  function GetLists(s: Session, users: seq<User>): (r: Reply)
    ensures s.Anonymous? <==> r.Unauthorized?
    ensures s.SignedIn? ==> (r.UserNotFound? <==> forall i :: 0 <= i < |users| ==> users[i].id != s.user.id)
    ensures r.Lists? ==> exists i :: 0 <= i < |users| && users[i].id == s.user.id && r.lists == users[i].lists
  {
    if s.Anonymous? then Unauthorized
    else match FindUser(users, s.user.id)
      case None => UserNotFound
      case Some(i) => Lists(users[i].lists)
  }

  /** POST /: a falsy name is refused before the user is looked up; a name
      already present is a conflict; otherwise it is pushed at the end. */
  function PostList(s: Session, users: seq<User>, listName: Option<string>): (r: Outcome)
    ensures s.Anonymous? ==> r == Outcome(Unauthorized, users)
    ensures s.SignedIn? ==> (r.reply.NameRequired? <==> listName.None? || listName.value == "")
    ensures r.reply.UserNotFound? <==>
      s.SignedIn? && listName.Some? && listName.value != ""
      && forall i :: 0 <= i < |users| ==> users[i].id != s.user.id
    ensures r.reply.AlreadyExists? <==>
      s.SignedIn? && listName.Some? && listName.value != "" && FindUser(users, s.user.id).Some?
      && listName.value in users[FindUser(users, s.user.id).value].lists
    ensures s.SignedIn? ==>
      r.reply.NameRequired? || r.reply.UserNotFound? || r.reply.AlreadyExists? || r.reply.Added?
    ensures !r.reply.Added? ==> r.users == users
    ensures r.reply.Added? ==>
      var i := FindUser(users, s.user.id).value;
      && r.reply.lists == users[i].lists + [listName.value]
      && r.users == users[i := users[i].(lists := r.reply.lists)]
    ensures UsersUnique(users) ==> UsersUnique(r.users)
  {
    if s.Anonymous? then Outcome(Unauthorized, users)
    else if listName.None? || listName.value == "" then Outcome(NameRequired, users)
    else match FindUser(users, s.user.id)
      case None => Outcome(UserNotFound, users)
      case Some(i) =>
        if listName.value in users[i].lists then Outcome(AlreadyExists, users)
        else
          var lists := users[i].lists + [listName.value];
          Outcome(Added(lists), users[i := users[i].(lists := lists)])
  }

  /** DELETE /:listName: every occurrence is filtered out, and every other
      name keeps its place and its number of occurrences; when nothing was
      removed the answer is 404 and nothing is saved. */
  function DeleteList(s: Session, users: seq<User>, listName: string): (r: Outcome)
    ensures s.Anonymous? ==> r == Outcome(Unauthorized, users)
    ensures s.SignedIn? ==> (r.reply.UserNotFound? <==> forall i :: 0 <= i < |users| ==> users[i].id != s.user.id)
    ensures r.reply.ListNotFound? <==>
      s.SignedIn? && FindUser(users, s.user.id).Some?
      && listName !in users[FindUser(users, s.user.id).value].lists
    ensures s.SignedIn? ==> r.reply.UserNotFound? || r.reply.ListNotFound? || r.reply.Removed?
    ensures !r.reply.Removed? ==> r.users == users
    ensures r.reply.Removed? ==>
      var i := FindUser(users, s.user.id).value;
      && |r.reply.lists| < |users[i].lists|
      && (forall l :: l in r.reply.lists <==> l in users[i].lists && l != listName)
      && IsSubsequence(r.reply.lists, users[i].lists)
      && (forall l :: l != listName ==> multiset(r.reply.lists)[l] == multiset(users[i].lists)[l])
      && r.users == users[i := users[i].(lists := r.reply.lists)]
    ensures UsersUnique(users) ==> UsersUnique(r.users)
  {
    if s.Anonymous? then Outcome(Unauthorized, users)
    else match FindUser(users, s.user.id)
      case None => Outcome(UserNotFound, users)
      case Some(i) =>
        var kept := Filter(Other(listName), users[i].lists);
        NamesAfterDelete(listName, users[i].lists);
        if |kept| == |users[i].lists| then Outcome(ListNotFound, users)
        else Outcome(Removed(kept), users[i := users[i].(lists := kept)])
  }

  /** Filtering a name out shortens the lists exactly when the name is in
      them. */
  lemma {:induction false} FilterOtherShorter(name: string, s: seq<string>)
    ensures |Filter(Other(name), s)| < |s| <==> name in s
  {
    if s != [] {
      FilterOtherShorter(name, s[1..]);
      assert name in s <==> s[0] == name || name in s[1..];
    }
  }

  /** What filtering one name out leaves: the other names, in order and in
      number. */
  lemma NamesAfterDelete(name: string, s: seq<string>)
    ensures var kept := Filter(Other(name), s);
      && (|kept| < |s| <==> name in s)
      && (forall l :: l in kept <==> l in s && l != name)
      && IsSubsequence(kept, s)
      && (forall l :: l != name ==> multiset(kept)[l] == multiset(s)[l])
  {
    FilterOtherShorter(name, s);
    FilterSubsequence(Other(name), s);
    FilterCounts(Other(name), s);
    var kept := Filter(Other(name), s);
    forall l ensures l in kept <==> l in s && l != name {
      assert l in kept <==> multiset(kept)[l] > 0;
      assert l in s <==> multiset(s)[l] > 0;
    }
  }

  /** Deleting a name that was just added gives the lists back as they were. */
  lemma AddThenDelete(u: User, users: seq<User>, name: string)
    requires PostList(SignedIn(u), users, Some(name)).reply.Added?
    ensures
      var i := FindUser(users, u.id).value;
      DeleteList(SignedIn(u), PostList(SignedIn(u), users, Some(name)).users, name)
      == Outcome(Removed(users[i].lists), users)
  {
    var i := FindUser(users, u.id).value;
    var before := users[i].lists;
    var after := PostList(SignedIn(u), users, Some(name)).users;
    assert after == users[i := users[i].(lists := before + [name])];
    FindUserSameIds(after, users, u.id);
    assert after[i].lists == before + [name];
    assert name !in before;
    var kept := Filter(Other(name), before + [name]);
    assert kept == before by {
      FilterAppend(Other(name), before, [name]);
      FilterKeepsAll(Other(name), before);
      assert Filter(Other(name), [name]) == [];
    }
    assert after[i := after[i].(lists := before)] == users;
  }

  /** A second delete of the same name finds nothing to remove. */
  lemma DeleteTwice(u: User, users: seq<User>, name: string)
    requires DeleteList(SignedIn(u), users, name).reply.Removed?
    ensures
      var after := DeleteList(SignedIn(u), users, name).users;
      DeleteList(SignedIn(u), after, name) == Outcome(ListNotFound, after)
  {
    var i := FindUser(users, u.id).value;
    var after := DeleteList(SignedIn(u), users, name).users;
    FindUserSameIds(after, users, u.id);
  }
}
