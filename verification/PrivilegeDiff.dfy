/** What to grant and what to revoke, from the privileges read out of an access control list. */
module PrivilegeDiff {
  import opened Lex
  import opened AclParser
  import opened ScaleViewWebhooks

  datatype ObjectKind = Table | Database | Schema

  /** The privilege a character stands for; the empty name stands for none. */
  function MapChar(kind: ObjectKind, c: char): string {
    match kind
    case Table =>
      (match c
       case 'r' => "SELECT"
       case 'a' => "INSERT"
       case 'w' => "UPDATE"
       case 'd' => "DELETE"
       case 'D' => "TRUNCATE"
       case 'x' => "REFERENCES"
       case 't' => "TRIGGER"
       case _ => "")
    case Database => if c == 'c' then "CONNECT" else if c == 'C' then "CREATE" else ""
    case Schema => if c == 'U' then "USAGE" else if c == 'C' then "CREATE" else ""
  }

  function Alphabet(kind: ObjectKind): set<string> {
    match kind
    case Table => {"SELECT", "INSERT", "UPDATE", "DELETE", "TRUNCATE", "REFERENCES", "TRIGGER"}
    case Database => {"CONNECT", "CREATE"}
    case Schema => {"USAGE", "CREATE"}
  }

  function CharOf(kind: ObjectKind, name: string): (c: char)
    requires name in Alphabet(kind)
    ensures MapChar(kind, c) == name
  {
    match kind
    case Table =>
      if name == "SELECT" then 'r' else if name == "INSERT" then 'a' else if name == "UPDATE" then 'w'
      else if name == "DELETE" then 'd' else if name == "TRUNCATE" then 'D'
      else if name == "REFERENCES" then 'x' else 't'
    case Database => if name == "CONNECT" then 'c' else 'C'
    case Schema => if name == "USAGE" then 'U' else 'C'
  }

  lemma MappedIntoAlphabet(kind: ObjectKind, c: char)
    ensures MapChar(kind, c) != "" ==> MapChar(kind, c) in Alphabet(kind)
  {}

  /** Which character stands for which privilege. */
  lemma CharactersStandFor(kind: ObjectKind, c: char)
    ensures MapChar(Table, 'r') == "SELECT" && MapChar(Table, 'a') == "INSERT" && MapChar(Table, 'w') == "UPDATE"
    ensures MapChar(Table, 'd') == "DELETE" && MapChar(Table, 'D') == "TRUNCATE"
    ensures MapChar(Table, 'x') == "REFERENCES" && MapChar(Table, 't') == "TRIGGER"
    ensures MapChar(Database, 'c') == "CONNECT" && MapChar(Database, 'C') == "CREATE"
    ensures MapChar(Schema, 'U') == "USAGE" && MapChar(Schema, 'C') == "CREATE"
    ensures MapChar(kind, c) != "" ==>
              c in (match kind case Table => "rawdDxt" case Database => "cC" case Schema => "UC")
  {}

  function SetOf(names: seq<string>): (r: set<string>)
    ensures forall n :: n in r <==> n in names
  {
    set n | n in names
  }

  // ---- Reading the actual privileges ----

  datatype ObjectPrivilege = ObjectPrivilege(privileges: seq<string>, withGrantOption: bool)

  function MapAll(kind: ObjectKind, ps: seq<PrivilegeGrant>): seq<string> {
    if ps == [] then []
    else
      var name := MapChar(kind, ps[|ps| - 1].privilege);
      MapAll(kind, ps[..|ps| - 1]) + if name != "" then [name] else []
  }

  predicate CountsAsOption(kind: ObjectKind, g: PrivilegeGrant) {
    g.withGrantOption && MapChar(kind, g.privilege) != ""
  }

  predicate AnyOption(kind: ObjectKind, ps: seq<PrivilegeGrant>) {
    ps != [] && (AnyOption(kind, ps[..|ps| - 1]) || CountsAsOption(kind, ps[|ps| - 1]))
  }

  lemma {:induction false} AnyOptionExactly(kind: ObjectKind, ps: seq<PrivilegeGrant>)
    ensures AnyOption(kind, ps) <==> exists g :: g in ps && CountsAsOption(kind, g)
  {
    if ps != [] {
      var rest, last := ps[..|ps| - 1], ps[|ps| - 1];
      AnyOptionExactly(kind, rest);
      assert ps == rest + [last] && last in ps;
      if g :| g in rest && CountsAsOption(kind, g) { assert g in ps; }
    }
  }

  function EntryRow(kind: ObjectKind, up: UserPrivileges, user: string): seq<ObjectPrivilege> {
    if up.user == user && MapAll(kind, up.privileges) != []
    then [ObjectPrivilege(MapAll(kind, up.privileges), AnyOption(kind, up.privileges))] else []
  }

  /** One row for every entry of the user that maps to something. */
  function Rows(kind: ObjectKind, ups: seq<UserPrivileges>, user: string): seq<ObjectPrivilege> {
    if ups == [] then [] else Rows(kind, ups[..|ups| - 1], user) + EntryRow(kind, ups[|ups| - 1], user)
  }

  method FetchPrivileges(kind: ObjectKind, acl: string, user: string) returns (rows: seq<ObjectPrivilege>)
    ensures rows == Rows(kind, Parse(acl), user)
  {
    var userPrivs := ParseACL(acl);
    rows := [];
    for k := 0 to |userPrivs|
      invariant rows == Rows(kind, userPrivs[..k], user)
    {
      TakeNext(userPrivs, k);
      RowsAppend(kind, userPrivs[..k], userPrivs[k], user);
      var row := RowOf(kind, userPrivs[k], user);
      rows := rows + row;
    }
    TakeAll(userPrivs);
  }

  /** The body of the loop over the entries: no row, or one. */
  method RowOf(kind: ObjectKind, up: UserPrivileges, user: string) returns (row: seq<ObjectPrivilege>)
    ensures row == EntryRow(kind, up, user)
  {
    row := [];
    if up.user == user {
      var privs, grantOption := MapPrivileges(kind, up.privileges);
      if |privs| > 0 {
        row := [ObjectPrivilege(privs, grantOption)];
      }
    }
  }

  lemma RowsAppend(kind: ObjectKind, done: seq<UserPrivileges>, up: UserPrivileges, user: string)
    ensures Rows(kind, done + [up], user) == Rows(kind, done, user) + EntryRow(kind, up, user)
  {
    assert (done + [up])[..|done|] == done;
  }

  lemma AnyOptionAppend(kind: ObjectKind, ps: seq<PrivilegeGrant>, g: PrivilegeGrant)
    ensures AnyOption(kind, ps + [g]) <==> AnyOption(kind, ps) || CountsAsOption(kind, g)
  {
    assert (ps + [g])[..|ps|] == ps;
  }

  lemma MapAllAppend(kind: ObjectKind, ps: seq<PrivilegeGrant>, g: PrivilegeGrant)
    ensures MapAll(kind, ps + [g]) ==
            MapAll(kind, ps) + if MapChar(kind, g.privilege) != "" then [MapChar(kind, g.privilege)] else []
  {
    assert (ps + [g])[..|ps|] == ps;
  }

  method MapPrivileges(kind: ObjectKind, ps: seq<PrivilegeGrant>) returns (privs: seq<string>, grantOption: bool)
    ensures privs == MapAll(kind, ps) && grantOption == AnyOption(kind, ps)
  {
    privs, grantOption := [], false;
    for k := 0 to |ps|
      invariant privs == MapAll(kind, ps[..k]) && grantOption == AnyOption(kind, ps[..k])
    {
      TakeNext(ps, k);
      privs, grantOption := MapOne(kind, ps[k], privs, grantOption, ps[..k]);
    }
    TakeAll(ps);
  }

  /** The body of the loop over the privileges. */
  method MapOne(kind: ObjectKind, g: PrivilegeGrant, privs0: seq<string>, grantOption0: bool,
                ghost done: seq<PrivilegeGrant>)
    returns (privs: seq<string>, grantOption: bool)
    requires privs0 == MapAll(kind, done) && grantOption0 == AnyOption(kind, done)
    ensures privs == MapAll(kind, done + [g]) && grantOption == AnyOption(kind, done + [g])
  {
    MapAllAppend(kind, done, g);
    AnyOptionAppend(kind, done, g);
    privs, grantOption := privs0, grantOption0;
    var privType := MapChar(kind, g.privilege);
    if privType != "" {
      privs := privs + [privType];
      if g.withGrantOption { grantOption := true; }
    }
  }

  /** The controller looks at the first row. */
  function Actual(rows: seq<ObjectPrivilege>): seq<string> {
    if rows == [] then [] else rows[0].privileges
  }

  // ---- The diff ----

  ghost predicate IsDiff(actual: seq<string>, desired: seq<string>, toGrant: seq<string>, toRevoke: seq<string>) {
    && multiset(toGrant) == multiset(SetOf(desired) - SetOf(actual))
    && multiset(toRevoke) == multiset(SetOf(actual) - SetOf(desired))
  }

  /** Names of one map that are not in the other, in an order of the map's choosing. */
  method NotIn(a: set<string>, b: set<string>) returns (r: seq<string>)
    ensures multiset(r) == multiset(a - b)
  {
    r := [];
    var todo := a;
    while todo != {}
      invariant todo <= a && multiset(r) == multiset((a - todo) - b)
      decreases todo
    {
      var p := AnyOf(todo);
      if p !in b {
        assert (a - (todo - {p})) - b == ((a - todo) - b) + {p};
        r := r + [p];
      } else {
        assert (a - (todo - {p})) - b == (a - todo) - b;
      }
      todo := todo - {p};
    }
    assert (a - todo) - b == a - b;
  }

  method NameSet(names: seq<string>) returns (r: set<string>)
    ensures r == SetOf(names)
  {
    r := {};
    for i := 0 to |names|
      invariant r == SetOf(names[..i])
    {
      assert SetOf(names[..i + 1]) == SetOf(names[..i]) + {names[i]};
      r := r + {names[i]};
    }
    assert names[..|names|] == names;
  }

  /** For databases and schemas: the names come in the order of the maps. */
  method CalculateDiff(actual: seq<string>, desired: seq<string>) returns (toGrant: seq<string>, toRevoke: seq<string>)
    ensures IsDiff(actual, desired, toGrant, toRevoke)
  {
    var desiredPrivs := NameSet(desired);
    var actualPrivs := NameSet(actual);
    toGrant := NotIn(desiredPrivs, actualPrivs);
    toRevoke := NotIn(actualPrivs, desiredPrivs);
  }

  /** For tables, views and sources the names are also sorted. */
  method CalculateObjectDiff(actual: seq<string>, desired: seq<string>)
    returns (toGrant: seq<string>, toRevoke: seq<string>)
    ensures IsDiff(actual, desired, toGrant, toRevoke) && InOrder(toGrant) && InOrder(toRevoke)
  {
    toGrant, toRevoke := CalculateDiff(actual, desired);
    SortInOrder(toGrant);
    SortInOrder(toRevoke);
    toGrant, toRevoke := SortStrings(toGrant), SortStrings(toRevoke);
  }

  /** Revokes, then grants. */
  function Applied(held: set<string>, toGrant: seq<string>, toRevoke: seq<string>): set<string> {
    (held - SetOf(toRevoke)) + SetOf(toGrant)
  }

  lemma SameNames(names: seq<string>, s: set<string>)
    requires multiset(names) == multiset(s)
    ensures SetOf(names) == s && |names| == |s|
  {
    forall n ensures n in SetOf(names) <==> n in s {
      assert n in names <==> n in multiset(names);
    }
    assert |multiset(names)| == |names|;
  }

  lemma BothDifferencesEmpty(a: set<string>, b: set<string>)
    ensures a - b == {} && b - a == {} <==> a == b
  {
    if a - b == {} && b - a == {} {
      forall n ensures n in a <==> n in b { assert n !in a - b && n !in b - a; }
    }
  }

  /** Revoking and granting reaches exactly the desired set, touches nothing twice and nothing that is
      right already. */
  lemma DiffReachesTarget(actual: seq<string>, desired: seq<string>, toGrant: seq<string>, toRevoke: seq<string>)
    requires IsDiff(actual, desired, toGrant, toRevoke)
    ensures Applied(SetOf(actual), toGrant, toRevoke) == SetOf(desired)
    ensures SetOf(toRevoke) <= SetOf(actual) && SetOf(toGrant) !! SetOf(actual)
    ensures |toGrant| == |SetOf(desired) - SetOf(actual)| && |toRevoke| == |SetOf(actual) - SetOf(desired)|
    ensures toGrant == [] && toRevoke == [] <==> SetOf(actual) == SetOf(desired)
  {
    SameNames(toGrant, SetOf(desired) - SetOf(actual));
    SameNames(toRevoke, SetOf(actual) - SetOf(desired));
    BothDifferencesEmpty(SetOf(actual), SetOf(desired));
    assert toGrant == [] <==> SetOf(desired) - SetOf(actual) == {};
    assert toRevoke == [] <==> SetOf(actual) - SetOf(desired) == {};
  }

  // ---- From list to list ----

  /** The server's view: the user holds a privilege if an entry for the user has its character. */
  ghost predicate Holds(kind: ObjectKind, ups: seq<UserPrivileges>, user: string, name: string) {
    exists up, g :: up in ups && up.user == user && g in up.privileges && MapChar(kind, g.privilege) == name != ""
  }

  ghost function Held(kind: ObjectKind, ups: seq<UserPrivileges>, user: string): (r: set<string>)
    ensures forall n :: n in r <==> Holds(kind, ups, user, n)
  {
    forall up, g | up in ups && g in up.privileges { MappedIntoAlphabet(kind, g.privilege); }
    set n | n in Alphabet(kind) && Holds(kind, ups, user, n)
  }

  ghost predicate OneEntry(ups: seq<UserPrivileges>, user: string) {
    forall i, j :: 0 <= i < j < |ups| ==> ups[i].user != user || ups[j].user != user
  }

  ghost predicate Mapped(kind: ObjectKind, ps: seq<PrivilegeGrant>, name: string) {
    exists g :: g in ps && MapChar(kind, g.privilege) == name != ""
  }

  lemma MappedAppend(kind: ObjectKind, ps: seq<PrivilegeGrant>, last: PrivilegeGrant, name: string)
    ensures Mapped(kind, ps + [last], name) <==> Mapped(kind, ps, name) || MapChar(kind, last.privilege) == name != ""
  {
    assert last in ps + [last];
    if Mapped(kind, ps, name) {
      var g :| g in ps && MapChar(kind, g.privilege) == name != "";
      assert g in ps + [last];
    }
  }

  lemma {:induction false} MapAllMembers(kind: ObjectKind, ps: seq<PrivilegeGrant>, name: string)
    ensures name in MapAll(kind, ps) <==> Mapped(kind, ps, name)
  {
    if ps != [] {
      var rest, last := ps[..|ps| - 1], ps[|ps| - 1];
      MapAllMembers(kind, rest, name);
      MappedAppend(kind, rest, last, name);
      assert ps == rest + [last];
    }
  }

  lemma {:induction false} NoRows(kind: ObjectKind, ups: seq<UserPrivileges>, user: string)
    requires forall up :: up in ups ==> up.user != user
    ensures Rows(kind, ups, user) == []
  {
    if ups != [] {
      assert ups[|ups| - 1] in ups;
      NoRows(kind, ups[..|ups| - 1], user);
    }
  }

  lemma OthersHoldApart(kind: ObjectKind, ups: seq<UserPrivileges>, last: UserPrivileges, user: string, name: string)
    ensures Holds(kind, ups + [last], user, name) <==>
            Holds(kind, ups, user, name) || (last.user == user && name in MapAll(kind, last.privileges))
  {
    MapAllMembers(kind, last.privileges, name);
    assert last in ups + [last];
    if Holds(kind, ups, user, name) {
      var up, g :| up in ups && up.user == user && g in up.privileges && MapChar(kind, g.privilege) == name != "";
      assert up in ups + [last];
    }
  }

  /** With one entry a grantee, what the operator reads is what the user holds. */
  lemma {:induction false} RowsReadHeld(kind: ObjectKind, ups: seq<UserPrivileges>, user: string, name: string)
    requires OneEntry(ups, user)
    ensures name in Actual(Rows(kind, ups, user)) <==> Holds(kind, ups, user, name)
  {
    if ups != [] {
      var rest, last := ups[..|ups| - 1], ups[|ups| - 1];
      assert ups == rest + [last];
      RowsReadHeld(kind, rest, user, name);
      OthersHoldApart(kind, rest, last, user, name);
      if last.user == user {
        assert forall up :: up in rest ==> up.user != user;
        NoRows(kind, rest, user);
      }
    }
  }

  /** One whole round: privileges read from a rendered list, the diff revoked and granted. The list the
      server then renders reads as exactly the desired set, and a fresh diff of it is empty. */
  lemma RoundReachesTarget(kind: ObjectKind, items: seq<AclItem>, next: seq<AclItem>, user: string,
                           desired: seq<string>,
                           toGrant: seq<string>, toRevoke: seq<string>, again: seq<string>, off: seq<string>)
    requires forall i :: 0 <= i < |items| ==> CleanItem(items[i])
    requires forall i :: 0 <= i < |next| ==> CleanItem(next[i])
    requires OneEntry(UsersOf(items), user) && OneEntry(UsersOf(next), user)
    requires IsDiff(Actual(Rows(kind, Parse(Render(items)), user)), desired, toGrant, toRevoke)
    requires Held(kind, UsersOf(next), user) == Applied(Held(kind, UsersOf(items), user), toGrant, toRevoke)
    requires IsDiff(Actual(Rows(kind, Parse(Render(next)), user)), desired, again, off)
    ensures SetOf(Actual(Rows(kind, Parse(Render(next)), user))) == SetOf(desired)
    ensures again == [] && off == []
  {
    AclRoundTrip(items);
    AclRoundTrip(next);
    ReadsHeld(kind, UsersOf(items), user);
    ReadsHeld(kind, UsersOf(next), user);
    DiffReachesTarget(Actual(Rows(kind, UsersOf(items), user)), desired, toGrant, toRevoke);
    DiffReachesTarget(Actual(Rows(kind, UsersOf(next), user)), desired, again, off);
  }

  /** A list that gives a user one privilege on a table, with or without the grant option, reads as just that. */
  lemma OnePrivilegeReads(kind: ObjectKind, user: string, grantor: string, c: char, option: bool)
    requires Clean(user) && Clean(grantor) && !IsDelimiter(c) && MapChar(kind, c) != ""
    ensures Rows(kind, Parse("{" + (user + "=" + ([c] + (if option then "*" else "") + "/" + grantor)) + "}"), user)
         == [ObjectPrivilege([MapChar(kind, c)], option)]
  {
    var privs := [c] + if option then "*" else "";
    var entry := user + "=" + (privs + "/" + grantor);
    var up := UserPrivileges(user, [PrivilegeGrant(c, option)]);
    StarGivesOption(c, "");
    assert privs == if option then [c, '*'] + "" else [c] + "";
    assert ParsePrivileges(privs) == up.privileges;
    CleanEntry(user, privs, grantor);
    JoinedEntriesAreSplit([entry]);
    EntriesParsed([entry], [up]);
    OneRow(kind, up, PrivilegeGrant(c, option));
  }

  lemma OneRow(kind: ObjectKind, up: UserPrivileges, g: PrivilegeGrant)
    requires up.privileges == [g] && MapChar(kind, g.privilege) != ""
    ensures Rows(kind, [up], up.user) == [ObjectPrivilege([MapChar(kind, g.privilege)], g.withGrantOption)]
  {
    MapAllAppend(kind, [], g);
    AnyOptionAppend(kind, [], g);
    assert [] + [g] == up.privileges && [] + [up] == [up];
    assert MapAll(kind, up.privileges) == [MapChar(kind, g.privilege)];
    assert AnyOption(kind, up.privileges) == g.withGrantOption;
    RowsAppend(kind, [], up, up.user);
  }

  /** Of several entries for a user the first that reads as anything counts, on tables. */
  lemma FirstEntryCounts(kind: ObjectKind, ups: seq<UserPrivileges>, user: string, i: nat)
    requires i < |ups| && ups[i].user == user && MapAll(kind, ups[i].privileges) != []
    requires forall j :: 0 <= j < i ==> ups[j].user != user || MapAll(kind, ups[j].privileges) == []
    ensures Actual(Rows(kind, ups, user)) == MapAll(kind, ups[i].privileges)
  {
    for n := 0 to |ups|
      invariant n <= i ==> Rows(kind, ups[..n], user) == []
      invariant n > i ==> Rows(kind, ups[..n], user) != []
                          && Rows(kind, ups[..n], user)[0].privileges == MapAll(kind, ups[i].privileges)
    {
      TakeNext(ups, n);
      RowsAppend(kind, ups[..n], ups[n], user);
    }
    TakeAll(ups);
  }

  lemma ReadsHeld(kind: ObjectKind, ups: seq<UserPrivileges>, user: string)
    requires OneEntry(ups, user)
    ensures SetOf(Actual(Rows(kind, ups, user))) == Held(kind, ups, user)
  {
    forall n ensures n in SetOf(Actual(Rows(kind, ups, user))) <==> n in Held(kind, ups, user) {
      RowsReadHeld(kind, ups, user, n);
    }
  }

  // ---- Which targets can be reached ----

  lemma GrantOf(kind: ObjectKind, name: string) returns (g: PrivilegeGrant)
    requires name in Alphabet(kind)
    ensures MapChar(kind, g.privilege) == name != ""
  {
    g := PrivilegeGrant(CharOf(kind, name), false);
  }

  lemma {:induction false} GrantsFor(kind: ObjectKind, names: seq<string>) returns (ps: seq<PrivilegeGrant>)
    requires forall n :: n in names ==> n in Alphabet(kind)
    ensures MapAll(kind, ps) == names
  {
    ps := [];
    if names != [] {
      var rest, last := names[..|names| - 1], names[|names| - 1];
      var before := GrantsFor(kind, rest);
      var g := GrantOf(kind, last);
      MapAllAppend(kind, before, g);
      ps := before + [g];
      assert names == rest + [last];
    }
  }

  ghost predicate Reads(kind: ObjectKind, ps: seq<PrivilegeGrant>, names: set<string>) {
    SetOf(MapAll(kind, ps)) == names
  }

  /** Some entry reads as the desired set exactly when every desired name has a character. For any other
      target, ALL among them, no list ever makes the diff empty. */
  lemma TargetReachableExactly(kind: ObjectKind, desired: seq<string>)
    ensures (exists ps :: Reads(kind, ps, SetOf(desired))) <==> SetOf(desired) <= Alphabet(kind)
  {
    if SetOf(desired) <= Alphabet(kind) {
      var ps := GrantsFor(kind, desired);
      assert Reads(kind, ps, SetOf(desired));
    }
    if ps: seq<PrivilegeGrant> :| Reads(kind, ps, SetOf(desired)) {
      forall n | n in SetOf(desired) ensures n in Alphabet(kind) {
        MapAllMembers(kind, ps, n);
        var g :| g in ps && MapChar(kind, g.privilege) == n != "";
        MappedIntoAlphabet(kind, g.privilege);
      }
    }
  }

  lemma {:induction false} RowsInAlphabet(kind: ObjectKind, ups: seq<UserPrivileges>, user: string,
                                          row: ObjectPrivilege)
    requires row in Rows(kind, ups, user)
    ensures SetOf(row.privileges) <= Alphabet(kind)
  {
    var last := ups[|ups| - 1];
    if row in Rows(kind, ups[..|ups| - 1], user) {
      RowsInAlphabet(kind, ups[..|ups| - 1], user, row);
    } else {
      forall n | n in row.privileges ensures n in Alphabet(kind) {
        MapAllMembers(kind, last.privileges, n);
        var g :| g in last.privileges && MapChar(kind, g.privilege) == n != "";
        MappedIntoAlphabet(kind, g.privilege);
      }
    }
  }

  /** Asking for a name without a character, such as ALL, never settles, whatever the list says. */
  lemma UnmappedNameNeverSettles(kind: ObjectKind, acl: string, user: string, desired: seq<string>,
                                 toGrant: seq<string>, toRevoke: seq<string>)
    requires IsDiff(Actual(Rows(kind, Parse(acl), user)), desired, toGrant, toRevoke)
    requires !(SetOf(desired) <= Alphabet(kind))
    ensures toGrant != []
  {
    var rows := Rows(kind, Parse(acl), user);
    if rows != [] { RowsInAlphabet(kind, Parse(acl), user, rows[0]); }
    SameNames(toGrant, SetOf(desired) - SetOf(Actual(rows)));
    var n :| n in SetOf(desired) && n !in Alphabet(kind);
    assert n in SetOf(toGrant);
  }

  /** The sorted lists depend on the two sets only, not on the order in which maps are visited. */
  lemma ObjectDiffIsCanonical(actual: seq<string>, desired: seq<string>, toGrant: seq<string>, toRevoke: seq<string>,
                              actual2: seq<string>, desired2: seq<string>, toGrant2: seq<string>,
                              toRevoke2: seq<string>)
    requires IsDiff(actual, desired, toGrant, toRevoke) && InOrder(toGrant) && InOrder(toRevoke)
    requires IsDiff(actual2, desired2, toGrant2, toRevoke2) && InOrder(toGrant2) && InOrder(toRevoke2)
    requires SetOf(actual) == SetOf(actual2) && SetOf(desired) == SetOf(desired2)
    ensures toGrant == toGrant2 && toRevoke == toRevoke2
  {
    OrderedIsUnique(toGrant, toGrant2);
    OrderedIsUnique(toRevoke, toRevoke2);
  }
}
