/**
 The account routes: registration, login and logout. They read and write the
 user table and the client's session; none of them touches messages or rooms.
 */
module Accounts {
  import opened Wrappers
  import opened Rooms
  import opened ChatState
  import Upload

  const NameTakenText := "ユーザー名は既に使用されています"
  const BadLoginText := "ログイン情報が間違っています"

  /** No two users share a name (the `unique=True` constraint on the name column). */
  ghost predicate NamesUnique(users: seq<User>) {
    forall i, j :: 0 <= i < j < |users| ==> users[i].name != users[j].name
  }

  /** Some user is called `name`. */
  ghost predicate NameTaken(users: seq<User>, name: string) {
    exists i :: 0 <= i < |users| && users[i].name == name
  }

  /** Row `i` is the earliest user called `name`. */
  ghost predicate FirstNamed(users: seq<User>, name: string, i: int) {
    0 <= i < |users| && users[i].name == name
    && forall j :: 0 <= j < i ==> users[j].name != name
  }

  /** There is only one earliest user of a name. */
  lemma FirstNamedUnique(users: seq<User>, name: string, i: int, k: int)
    requires FirstNamed(users, name, i) && FirstNamed(users, name, k)
    ensures i == k
  {
  }

  /** `User.query.filter_by(name=name).first()`: the earliest user with that name. */
  function FindByName(users: seq<User>, name: string): (r: Option<User>)
    ensures r.None? <==> !NameTaken(users, name)
    ensures r.Some? ==> exists i :: FirstNamed(users, name, i) && users[i] == r.value
  {
    if |users| == 0 then None
    else if users[0].name == name then Some(users[0])
    else
      var r := FindByName(users[1..], name);
      assert NameTaken(users[1..], name) ==> NameTaken(users, name) by {
        if NameTaken(users[1..], name) {
          var i :| 0 <= i < |users[1..]| && users[1..][i].name == name;
          assert users[i + 1].name == name;
        }
      }
      assert NameTaken(users, name) ==> NameTaken(users[1..], name) by {
        if NameTaken(users, name) {
          var i :| 0 <= i < |users| && users[i].name == name;
          assert users[1..][i - 1].name == name;
        }
      }
      if r.Some? then
        assert exists i :: FirstNamed(users, name, i) && users[i] == r.value by {
          var i :| FirstNamed(users[1..], name, i) && users[1..][i] == r.value;
          assert users[i + 1] == r.value;
          forall j | 0 <= j < i + 1
            ensures users[j].name != name
          {
            if j > 0 {
              assert users[j] == users[1..][j - 1];
            }
          }
          assert FirstNamed(users, name, i + 1);
        }
        r
      else r
  }

  /** An uploaded file: the browser's file name and where it was stored. */
  datatype IconFile = IconFile(filename: string, storedPath: string)

  /** The icon of a new user: the stored path only when the file name passes the check. */
  function IconFor(upload: Option<IconFile>): (icon: Option<string>)
    ensures icon.Some? <==> upload.Some? && Upload.AllowedFile(upload.value.filename)
    ensures icon.Some? ==> icon.value == upload.value.storedPath
  {
    match upload
    case Some(u) => if u.filename != "" && Upload.AllowedFile(u.filename) then Some(u.storedPath) else None
    case None => None
  }

  /**
   `register`: rejects a name already in use, otherwise commits one new user
   with the next id. Either way the names stay pairwise distinct.
   */
  function Register(st: State, name: string, passwordHash: string, upload: Option<IconFile>): (r: Outcome)
    ensures NameTaken(st.users, name) ==>
      r.state == st && r.effects == [] && r.reply == Body(NameTakenText)
    ensures !NameTaken(st.users, name) ==>
      && r.effects == [AddUser(User(|st.users| + 1, name, passwordHash, IconFor(upload)))]
      && |r.state.users| == |st.users| + 1
      && r.state.users[..|st.users|] == st.users
      && r.state.users[|st.users|] == User(|st.users| + 1, name, passwordHash, IconFor(upload))
      && r.state == st.(users := r.state.users)
      && r.reply == RedirectTo(LoginPage)
    ensures NamesUnique(st.users) ==> NamesUnique(r.state.users)
    ensures Replay(st, r.effects) == r.state
  {
    if FindByName(st.users, name).Some? then
      Outcome(st, [], Body(NameTakenText))
    else
      var u := User(|st.users| + 1, name, passwordHash, IconFor(upload));
      var st' := st.(users := st.users + [u]);
      assert Replay(st, [AddUser(u)]) == Replay(st', []);
      Outcome(st', [AddUser(u)], RedirectTo(LoginPage))
  }

  /**
   `login`: with a user of that name whose stored hash accepts the password,
   the client's session gets that user's id, name and icon; otherwise nothing
   changes. `check` stands for `check_password_hash`.
   */
  function Login(st: State, c: ConnId, name: string, password: string,
                 check: (string, string) -> bool): (r: Outcome)
    ensures r.state.users == st.users && r.state.log == st.log && r.state.rooms == st.rooms
    ensures r.reply == RedirectTo(IndexPage) <==>
      exists i :: FirstNamed(st.users, name, i) && check(st.users[i].passwordHash, password)
    ensures r.reply == RedirectTo(IndexPage) ==>
      exists i :: && FirstNamed(st.users, name, i)
                  && var s := Session(Present(st.users[i].id), Present(name), Present(st.users[i].icon));
                  && r.state.sessions == st.sessions[c := s]
                  && r.effects == [WriteSession(c, s)]
    ensures r.reply != RedirectTo(IndexPage) ==>
      r.state == st && r.effects == [] && r.reply == Body(BadLoginText)
    ensures Replay(st, r.effects) == r.state
  {
    var found := FindByName(st.users, name);
    if found.Some? && check(found.value.passwordHash, password) then
      var u := found.value;
      var s := Session(Present(u.id), Present(u.name), Present(u.icon));
      var st' := st.(sessions := st.sessions[c := s]);
      assert Replay(st, [WriteSession(c, s)]) == Replay(st', []);
      assert exists i :: FirstNamed(st.users, name, i) && st.users[i] == u;
      Outcome(st', [WriteSession(c, s)], RedirectTo(IndexPage))
    else
      assert forall i :: FirstNamed(st.users, name, i) ==> !check(st.users[i].passwordHash, password) by {
        forall i | FirstNamed(st.users, name, i)
          ensures !check(st.users[i].passwordHash, password)
        {
          assert NameTaken(st.users, name);
          var k :| FirstNamed(st.users, name, k) && st.users[k] == found.value;
          FirstNamedUnique(st.users, name, i, k);
        }
      }
      Outcome(st, [], Body(BadLoginText))
  }

  /** `logout`: removes all three session keys; nothing else changes. */
  function Logout(st: State, c: ConnId): (r: Outcome)
    ensures !SessionOf(r.state, c).LoggedIn()
    ensures SessionOf(r.state, c) == EmptySession
    ensures r.state == st.(sessions := r.state.sessions)
    ensures forall other :: other != c ==> SessionOf(r.state, other) == SessionOf(st, other)
    ensures r.reply == RedirectTo(LoginPage)
    ensures r.effects == [WriteSession(c, EmptySession)]
    ensures Replay(st, r.effects) == r.state
  {
    var st' := st.(sessions := st.sessions[c := EmptySession]);
    assert Replay(st, [WriteSession(c, EmptySession)]) == Replay(st', []);
    Outcome(st', [WriteSession(c, EmptySession)], RedirectTo(LoginPage))
  }

  /** Logging out twice is logging out once. */
  lemma LogoutIdempotent(st: State, c: ConnId)
    ensures Logout(Logout(st, c).state, c).state == Logout(st, c).state
  {
  }
}
