/**
  Who may read and post (internal/auth/store.go): users, groups and memberships held in memory.
 */
module Auth {
  import opened Text

  /** A logged-in connection. The groups are a slice in the server; only membership is ever asked of it. */
  datatype Session = Session(username: string, realName: string, groups: set<string>)

  datatype User = User(passwordHash: string, realName: string)

  datatype AclGroup = AclGroup(groupPerm: string, worldPerm: string, archived: bool)

  /** The content of the store. */
  datatype StoreState = StoreState(users: map<string, User>, groups: map<string, AclGroup>,
                                   membership: map<string, set<string>>, mode: string)

  // ----- decisions -----

  /** A permission text ("r", "w", "rw") holds a flag. */
  predicate PermHas(perm: string, flag: char) {
    flag in perm
  }

  predicate InGroup(session: Option<Session>, group: string) {
    session.Some? && session.value.username != "" && group in session.value.groups
  }

  const MODE_PUBLIC := "public"
  const MODE_PRIVATE := "private"
  const MODE_READ_PUBLIC_WRITE_PRIVATE := "read_public_write_private"

  function PermFor(g: AclGroup, inGroup: bool): string {
    if inGroup then g.groupPerm else g.worldPerm
  }

  /** CanRead, the switch over the global mode at its end included. */
  predicate CanRead(st: StoreState, session: Option<Session>, group: string, inSpool: bool) {
    if group !in st.groups then false
    else if st.groups[group].archived then false
    else if !inSpool then false
    else if group in st.groups then PermHas(PermFor(st.groups[group], InGroup(session, group)), 'r')
    else if st.mode == MODE_PUBLIC then true
    else if st.mode == MODE_PRIVATE then InGroup(session, group)
    else true
  }

  predicate CanPost(st: StoreState, session: Option<Session>, group: string, inSpool: bool) {
    if group !in st.groups then false
    else if st.groups[group].archived then false
    else if !inSpool then false
    else if group in st.groups then PermHas(PermFor(st.groups[group], InGroup(session, group)), 'w')
    else if st.mode == MODE_PUBLIC then true
    else if st.mode == MODE_PRIVATE || st.mode == MODE_READ_PUBLIC_WRITE_PRIVATE then InGroup(session, group)
    else true
  }

  /**
    The global mode never decides: changing it changes no answer, and a group without a record is closed under
    every mode.
   */
  lemma ModeNeverDecides(st: StoreState, mode: string, session: Option<Session>, group: string, inSpool: bool)
    ensures CanRead(st.(mode := mode), session, group, inSpool) == CanRead(st, session, group, inSpool)
    ensures CanPost(st.(mode := mode), session, group, inSpool) == CanPost(st, session, group, inSpool)
    ensures group !in st.groups ==> !CanRead(st, session, group, inSpool) && !CanPost(st, session, group, inSpool)
  {
  }

  /**
    Whom a group lets in: its permission text for members, who are logged in and have the group among theirs,
    decides for them, and its world permission for everyone else; an archived group lets nobody in.
   */
  predicate Admits(st: StoreState, session: Option<Session>, group: string, flag: char) {
    && group in st.groups && !st.groups[group].archived
    && var g := st.groups[group];
       if session.Some? && session.value.username != "" && group in session.value.groups then flag in g.groupPerm
       else flag in g.worldPerm
  }

  /** Reading asks for r and posting for w. */
  lemma AdmittedExactly(st: StoreState, session: Option<Session>, group: string, inSpool: bool)
    ensures CanRead(st, session, group, inSpool) <==> inSpool && Admits(st, session, group, 'r')
    ensures CanPost(st, session, group, inSpool) <==> inSpool && Admits(st, session, group, 'w')
  {
  }

  predicate IsArchived(st: StoreState, group: string) {
    group in st.groups && st.groups[group].archived
  }

  /** The names of a list that a session may read, in order. */
  function Listable(st: StoreState, session: Option<Session>, names: seq<string>): seq<string> {
    if names == [] then []
    else
      var n := |names| - 1;
      Listable(st, session, names[..n]) + (if CanRead(st, session, names[n], true) then [names[n]] else [])
  }

  lemma {:induction false} ListableMembers(st: StoreState, session: Option<Session>, names: seq<string>)
    ensures forall g :: g in Listable(st, session, names) <==> g in names && CanRead(st, session, g, true)
  {
    if names != [] {
      var n := |names| - 1;
      ListableMembers(st, session, names[..n]);
      assert names == names[..n] + [names[n]];
    }
  }

  /** Whoever asks, an archived group is neither readable, nor writable, nor listed. */
  lemma ArchivedIsClosed(st: StoreState, session: Option<Session>, group: string, inSpool: bool, names: seq<string>)
    requires IsArchived(st, group)
    ensures !CanRead(st, session, group, inSpool) && !CanPost(st, session, group, inSpool)
    ensures group !in Listable(st, session, names)
  {
    ListableMembers(st, session, names);
  }

  // ----- reload -----

  /** Loading rows one after the other: the last row of a name stands. */
  function WithRows<V>(loaded: map<string, V>, rows: seq<(string, V)>): map<string, V> {
    if rows == [] then loaded
    else WithRows(loaded, rows[..|rows| - 1])[rows[|rows| - 1].0 := rows[|rows| - 1].1]
  }

  /** The last row for a name, if any. */
  function LastRow<V>(rows: seq<(string, V)>, name: string): Option<V> {
    if rows == [] then None
    else if rows[|rows| - 1].0 == name then Some(rows[|rows| - 1].1)
    else LastRow(rows[..|rows| - 1], name)
  }

  lemma {:induction false} ReloadedRow<V>(rows: seq<(string, V)>, name: string)
    ensures match LastRow(rows, name)
            case Some(v) => name in WithRows(map[], rows) && WithRows(map[], rows)[name] == v
            case None => name !in WithRows(map[], rows)
  {
    if rows != [] {
      ReloadedRow(rows[..|rows| - 1], name);
    }
  }

  function MembershipOf(membership: map<string, set<string>>, username: string): set<string> {
    if username in membership then membership[username] else {}
  }

  function WithMember(membership: map<string, set<string>>, username: string, groupname: string)
    : map<string, set<string>>
  {
    if username == "" || groupname == "" then membership
    else membership[username := MembershipOf(membership, username) + {groupname}]
  }

  function WithMembers(membership: map<string, set<string>>, rows: seq<(string, string)>): map<string, set<string>> {
    if rows == [] then membership
    else WithMember(WithMembers(membership, rows[..|rows| - 1]), rows[|rows| - 1].0, rows[|rows| - 1].1)
  }

  /** After a reload a user is in exactly the groups some row puts them in. */
  lemma {:induction false} ReloadedMembers(rows: seq<(string, string)>, username: string, groupname: string)
    ensures groupname in MembershipOf(WithMembers(map[], rows), username) <==>
            username != "" && groupname != "" && (username, groupname) in rows
  {
    if rows != [] {
      ReloadedMembers(rows[..|rows| - 1], username, groupname);
      assert rows == rows[..|rows| - 1] + [rows[|rows| - 1]];
    }
  }

  // ----- the store -----

  class Store {
    var users: map<string, User>
    var groups: map<string, AclGroup>
    var membership: map<string, set<string>>
    var mode: string

    function View(): StoreState
      reads this
    {
      StoreState(users, groups, membership, mode)
    }

    constructor (mode: string)
      ensures View() == StoreState(map[], map[], map[], if mode == "" then MODE_PUBLIC else mode)
    {
      users, groups, membership := map[], map[], map[];
      this.mode := if mode == "" then MODE_PUBLIC else mode;
    }

    method SetMode(mode: string)
      modifies this
      ensures View() == if mode == "" then old(View()) else old(View()).(mode := mode)
    {
      if mode != "" {
        this.mode := mode;
      }
    }

    method LoadUser(username: string, u: User)
      modifies this
      ensures View() == old(View()).(users := old(users)[username := u])
    {
      users := users[username := u];
    }

    method LoadGroup(name: string, g: AclGroup)
      modifies this
      ensures View() == old(View()).(groups := old(groups)[name := g])
    {
      groups := groups[name := g];
    }

    method LoadMembership(username: string, groupname: string)
      modifies this
      ensures View() == old(View()).(membership := WithMember(old(membership), username, groupname))
    {
      if username == "" || groupname == "" {
        return;
      }
      var m := if username in membership then membership[username] else {};
      membership := membership[username := m + {groupname}];
    }

    method Clear()
      modifies this
      ensures View() == StoreState(map[], map[], map[], old(mode))
    {
      users, groups, membership := map[], map[], map[];
    }

    /** LoadStoreFromDB: everything cleared, then the users, the groups and the memberships, row by row. */
    method LoadStore(userRows: seq<(string, User)>, groupRows: seq<(string, AclGroup)>,
                     memberRows: seq<(string, string)>)
      modifies this
      ensures View() == StoreState(WithRows(map[], userRows), WithRows(map[], groupRows),
                                   WithMembers(map[], memberRows), old(mode))
    {
      Clear();
      for i := 0 to |userRows|
        invariant View() == StoreState(WithRows(map[], userRows[..i]), map[], map[], old(mode))
      {
        assert userRows[..i + 1][..i] == userRows[..i];
        LoadUser(userRows[i].0, userRows[i].1);
      }
      assert userRows[..|userRows|] == userRows;
      for i := 0 to |groupRows|
        invariant View() == StoreState(WithRows(map[], userRows), WithRows(map[], groupRows[..i]), map[], old(mode))
      {
        assert groupRows[..i + 1][..i] == groupRows[..i];
        LoadGroup(groupRows[i].0, groupRows[i].1);
      }
      assert groupRows[..|groupRows|] == groupRows;
      for i := 0 to |memberRows|
        invariant View() == StoreState(WithRows(map[], userRows), WithRows(map[], groupRows),
                                       WithMembers(map[], memberRows[..i]), old(mode))
      {
        assert memberRows[..i + 1][..i] == memberRows[..i];
        LoadMembership(memberRows[i].0, memberRows[i].1);
      }
      assert memberRows[..|memberRows|] == memberRows;
    }

    /** FilterGroupsForLIST */
    method FilterGroupsForLIST(session: Option<Session>, names: seq<string>) returns (out: seq<string>)
      ensures out == Listable(View(), session, names)
      ensures forall g :: g in out <==> g in names && Admits(View(), session, g, 'r')
    {
      out := [];
      for i := 0 to |names|
        invariant out == Listable(View(), session, names[..i])
      {
        assert names[..i + 1][..i] == names[..i];
        if IsArchived(View(), names[i]) {
          continue;
        }
        if CanRead(View(), session, names[i], true) {
          out := out + [names[i]];
        }
      }
      assert names[..|names|] == names;
      ListableMembers(View(), session, names);
      forall g ensures CanRead(View(), session, g, true) <==> Admits(View(), session, g, 'r') {
        AdmittedExactly(View(), session, g, true);
      }
    }
  }
}
