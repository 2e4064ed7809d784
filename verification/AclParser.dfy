/** Access control lists such as {alice=r*w/root,bob=r/root}: the parser and what it inverts. */
module AclParser {
  import opened Lex

  datatype PrivilegeGrant = PrivilegeGrant(privilege: char, withGrantOption: bool)

  datatype UserPrivileges = UserPrivileges(user: string, privileges: seq<PrivilegeGrant>)

  // ---- The string functions it uses ----

  predicate IsBrace(c: char) {
    c == '{' || c == '}'
  }

  function TrimLeft(s: string): string {
    if s != [] && IsBrace(s[0]) then TrimLeft(s[1..]) else s
  }

  function TrimRight(s: string): string {
    if s != [] && IsBrace(s[|s| - 1]) then TrimRight(s[..|s| - 1]) else s
  }

  function Trim(s: string): string {
    TrimRight(TrimLeft(s))
  }

  /** `strings.Split` at every occurrence of one character: never empty. */
  function Split(s: string, sep: char): (r: seq<string>)
    ensures r != []
  {
    if s == [] then [[]]
    else
      var rest := Split(s[1..], sep);
      if s[0] == sep then [[]] + rest else [[s[0]] + rest[0]] + rest[1..]
  }

  // ---- The parser ----

  /** A character is a privilege; a star right after it adds the grant option and is skipped. */
  function ParsePrivileges(s: string): seq<PrivilegeGrant> {
    if s == [] then []
    else if |s| > 1 && s[1] == '*' then [PrivilegeGrant(s[0], true)] + ParsePrivileges(s[2..])
    else [PrivilegeGrant(s[0], false)] + ParsePrivileges(s[1..])
  }

  /** grantee=privileges/grantor, or nothing. */
  function ParseEntry(entry: string): Option<UserPrivileges> {
    var parts := Split(entry, '=');
    if |parts| != 2 then None
    else
      var privsGrantor := Split(parts[1], '/');
      if |privsGrantor| != 2 then None
      else Some(UserPrivileges(parts[0], ParsePrivileges(privsGrantor[0])))
  }

  /** Malformed entries are left out. */
  function ParseEntries(entries: seq<string>): seq<UserPrivileges> {
    if entries == [] then []
    else ParseEntries(entries[..|entries| - 1])
         + match ParseEntry(entries[|entries| - 1]) { case Some(up) => [up] case None => [] }
  }

  function Parse(aclStr: string): seq<UserPrivileges> {
    var s := Trim(aclStr);
    if s == [] then [] else ParseEntries(Split(s, ','))
  }

  method ParseACL(aclStr: string) returns (results: seq<UserPrivileges>)
    ensures results == Parse(aclStr)
  {
    var s := Trim(aclStr);
    results := [];
    if s == "" {
      return;
    }
    var entries := Split(s, ',');
    for k := 0 to |entries|
      invariant results == ParseEntries(entries[..k])
    {
      assert entries[..k + 1][..k] == entries[..k];
      var parts := Split(entries[k], '=');
      if |parts| != 2 { continue; }
      var privsGrantor := Split(parts[1], '/');
      if |privsGrantor| != 2 { continue; }
      var privileges := ScanPrivileges(privsGrantor[0]);
      results := results + [UserPrivileges(parts[0], privileges)];
    }
    assert entries[..|entries|] == entries;
  }

  /** The index loop that skips stars. */
  method ScanPrivileges(privsStr: string) returns (privileges: seq<PrivilegeGrant>)
    ensures privileges == ParsePrivileges(privsStr)
  {
    privileges := [];
    var i := 0;
    while i < |privsStr|
      invariant i <= |privsStr| && privileges + ParsePrivileges(privsStr[i..]) == ParsePrivileges(privsStr)
    {
      ghost var rest := privsStr[i..];
      var c := privsStr[i];
      var withGrantOption := false;
      if i + 1 < |privsStr| && privsStr[i + 1] == '*' {
        withGrantOption := true;
        i := i + 1;
      }
      i := i + 1;
      assert privsStr[i..] == rest[(if withGrantOption then 2 else 1)..];
      privileges := privileges + [PrivilegeGrant(c, withGrantOption)];
    }
  }

  // ---- Rendering ----

  datatype AclItem = AclItem(up: UserPrivileges, grantor: string)

  function RenderPrivileges(ps: seq<PrivilegeGrant>): string {
    if ps == [] then ""
    else [ps[0].privilege] + (if ps[0].withGrantOption then "*" else "") + RenderPrivileges(ps[1..])
  }

  function RenderItem(item: AclItem): string {
    item.up.user + "=" + (RenderPrivileges(item.up.privileges) + "/" + item.grantor)
  }

  function RenderItems(items: seq<AclItem>): (r: seq<string>)
    ensures |r| == |items| && forall i :: 0 <= i < |r| ==> r[i] == RenderItem(items[i])
  {
    if items == [] then [] else [RenderItem(items[0])] + RenderItems(items[1..])
  }

  function Render(items: seq<AclItem>): string {
    "{" + Join(RenderItems(items), ',') + "}"
  }

  predicate IsDelimiter(c: char) {
    c == ',' || c == '=' || c == '/' || IsBrace(c)
  }

  ghost predicate Clean(s: string) {
    forall i :: 0 <= i < |s| ==> !IsDelimiter(s[i])
  }

  /** Names avoid the delimiters, no privilege is one, and no star of its own is taken for a grant option. */
  ghost predicate CleanItem(item: AclItem) {
    && Clean(item.up.user) && Clean(item.grantor)
    && (forall i :: 0 <= i < |item.up.privileges| ==> !IsDelimiter(item.up.privileges[i].privilege))
    && forall i: nat :: !StarTaken(item.up.privileges, i)
  }

  function UsersOf(items: seq<AclItem>): (r: seq<UserPrivileges>)
    ensures |r| == |items| && forall i :: 0 <= i < |r| ==> r[i] == items[i].up
  {
    if items == [] then [] else UsersOf(items[..|items| - 1]) + [items[|items| - 1].up]
  }

  // ---- Privilege strings ----

  /** Nothing of a privilege string is lost, whatever it is. */
  lemma {:induction false} RenderInvertsParse(s: string)
    ensures RenderPrivileges(ParsePrivileges(s)) == s
  {
    if s != [] {
      if |s| > 1 && s[1] == '*' {
        RenderInvertsParse(s[2..]);
        assert s == [s[0]] + "*" + s[2..];
      } else {
        RenderInvertsParse(s[1..]);
        assert s == [s[0]] + "" + s[1..];
      }
    }
  }

  /** A star as a privilege of its own, right after a privilege without the grant option. */
  ghost predicate StarTaken(ps: seq<PrivilegeGrant>, i: nat) {
    i + 1 < |ps| && !ps[i].withGrantOption && ps[i + 1].privilege == '*'
  }

  /** The exact condition for a list of privileges to come back. */
  lemma {:induction false} ParseInvertsRenderExactly(ps: seq<PrivilegeGrant>)
    ensures ParsePrivileges(RenderPrivileges(ps)) == ps <==> forall i: nat :: !StarTaken(ps, i)
  {
    if ps != [] {
      var s, rest := RenderPrivileges(ps), RenderPrivileges(ps[1..]);
      ParseInvertsRenderExactly(ps[1..]);
      forall i: nat ensures StarTaken(ps[1..], i) <==> StarTaken(ps, i + 1) {}
      assert |ps| > 1 ==> rest != "" && rest[0] == ps[1].privilege;
      if ps[0].withGrantOption {
        assert s[2..] == rest;
        HeadStays(ps);
      } else if StarTaken(ps, 0) {
        assert ParsePrivileges(s)[0].withGrantOption;
      } else {
        assert s[1..] == rest;
        HeadStays(ps);
      }
    }
  }

  lemma HeadStays(ps: seq<PrivilegeGrant>)
    requires ps != [] && !StarTaken(ps, 0)
    requires forall i: nat :: StarTaken(ps[1..], i) <==> StarTaken(ps, i + 1)
    ensures forall qs :: [ps[0]] + qs == ps <==> qs == ps[1..]
    ensures (forall i: nat :: !StarTaken(ps, i)) <==> forall i: nat :: !StarTaken(ps[1..], i)
  {
    forall qs | [ps[0]] + qs == ps ensures qs == ps[1..] { assert qs == ([ps[0]] + qs)[1..]; }
    forall i: nat | StarTaken(ps, i) ensures StarTaken(ps[1..], i - 1) {}
  }

  lemma {:induction false} RenderedPrivilegesAreClean(ps: seq<PrivilegeGrant>)
    requires forall i :: 0 <= i < |ps| ==> !IsDelimiter(ps[i].privilege)
    ensures Clean(RenderPrivileges(ps))
  {
    if ps != [] { RenderedPrivilegesAreClean(ps[1..]); }
  }

  // ---- Splitting what was joined ----

  ghost predicate Without(s: string, sep: char) {
    forall i :: 0 <= i < |s| ==> s[i] != sep
  }

  lemma {:induction false} SplitWhole(s: string, sep: char)
    requires Without(s, sep)
    ensures Split(s, sep) == [s]
  {
    if s != [] {
      SplitWhole(s[1..], sep);
      assert s == [s[0]] + s[1..];
    }
  }

  lemma {:induction false} SplitFirst(s: string, sep: char, rest: string)
    requires Without(s, sep)
    ensures Split(s + [sep] + rest, sep) == [s] + Split(rest, sep)
  {
    var all := s + [sep] + rest;
    if s == [] {
      assert all[1..] == rest;
    } else {
      SplitFirst(s[1..], sep, rest);
      assert all[1..] == s[1..] + [sep] + rest;
      assert s == [s[0]] + s[1..];
    }
  }

  lemma {:induction false} SplitInvertsJoin(parts: seq<string>, sep: char)
    requires parts != [] && forall i :: 0 <= i < |parts| ==> Without(parts[i], sep)
    ensures Split(Join(parts, sep), sep) == parts
  {
    if |parts| == 1 {
      SplitWhole(parts[0], sep);
    } else {
      SplitInvertsJoin(parts[1..], sep);
      SplitFirst(parts[0], sep, Join(parts[1..], sep));
      assert parts == [parts[0]] + parts[1..];
    }
  }

  lemma SplitPair(x: string, sep: char, y: string)
    requires Without(x, sep) && Without(y, sep)
    ensures Split(x + [sep] + y, sep) == [x, y]
  {
    SplitFirst(x, sep, y);
    SplitWhole(y, sep);
  }

  lemma WithoutParts(user: string, privs: string, grantor: string, c: char)
    requires Without(user, c) && Without(privs, c) && Without(grantor, c)
    ensures c != '/' ==> Without(privs + ['/'] + grantor, c)
    ensures c != '/' && c != '=' ==> Without(user + ['='] + (privs + ['/'] + grantor), c)
  {}

  lemma EntryRoundTrip(item: AclItem)
    requires CleanItem(item)
    ensures ParseEntry(RenderItem(item)) == Some(item.up)
    ensures Without(RenderItem(item), ',')
  {
    var user, privs, grantor := item.up.user, RenderPrivileges(item.up.privileges), item.grantor;
    RenderedPrivilegesAreClean(item.up.privileges);
    WithoutParts(user, privs, grantor, '=');
    WithoutParts(user, privs, grantor, ',');
    SplitPair(privs, '/', grantor);
    SplitPair(user, '=', privs + ['/'] + grantor);
    ParseInvertsRenderExactly(item.up.privileges);
  }

  lemma {:induction false} EntriesParsed(entries: seq<string>, ups: seq<UserPrivileges>)
    requires |entries| == |ups| && forall i :: 0 <= i < |ups| ==> ParseEntry(entries[i]) == Some(ups[i])
    ensures ParseEntries(entries) == ups
  {
    if ups != [] {
      var last := |ups| - 1;
      EntriesParsed(entries[..last], ups[..last]);
      assert ups == ups[..last] + [ups[last]];
    }
  }

  ghost predicate Braceless(s: string) {
    s != "" && !IsBrace(s[0]) && !IsBrace(s[|s| - 1])
  }

  lemma EndsAreNoBraces(item: AclItem)
    requires CleanItem(item)
    ensures Braceless(RenderItem(item))
  {
    var s := RenderItem(item);
    assert s[0] == if item.up.user == "" then '=' else item.up.user[0];
    assert s[|s| - 1] == if item.grantor == "" then '/' else item.grantor[|item.grantor| - 1];
  }

  lemma {:induction false} JoinIsBraceless(parts: seq<string>, sep: char)
    requires parts != [] && !IsBrace(sep) && forall i :: 0 <= i < |parts| ==> Braceless(parts[i])
    ensures Braceless(Join(parts, sep))
  {
    if |parts| > 1 { JoinIsBraceless(parts[1..], sep); }
  }

  lemma TrimBraces(s: string)
    requires s == "" || Braceless(s)
    ensures Trim("{" + s + "}") == s
  {
    var t := s + "}";
    assert ("{" + s + "}")[1..] == t;
    assert "{" + s + "}" == ['{'] + t;
    if s == "" {
      assert t[1..] == "" && TrimLeft(t) == TrimLeft("");
    } else {
      assert t[0] == s[0] && TrimLeft(t) == t;
      assert t[..|t| - 1] == s && TrimRight(t) == TrimRight(s);
    }
  }

  lemma JoinedEntriesAreSplit(entries: seq<string>)
    requires forall i :: 0 <= i < |entries| ==> Braceless(entries[i]) && Without(entries[i], ',')
    ensures Parse("{" + Join(entries, ',') + "}") == ParseEntries(entries)
  {
    if entries == [] {
      TrimBraces("");
    } else {
      JoinIsBraceless(entries, ',');
      TrimBraces(Join(entries, ','));
      SplitInvertsJoin(entries, ',');
    }
  }

  /** The parser inverts the rendering: every grantee, every privilege and every grant option comes
      back, in order. */
  lemma AclRoundTrip(items: seq<AclItem>)
    requires forall i :: 0 <= i < |items| ==> CleanItem(items[i])
    ensures Parse(Render(items)) == UsersOf(items)
  {
    var entries, ups := RenderItems(items), UsersOf(items);
    forall i | 0 <= i < |items|
      ensures Braceless(entries[i]) && Without(entries[i], ',') && ParseEntry(entries[i]) == Some(ups[i])
    {
      EndsAreNoBraces(items[i]);
      EntryRoundTrip(items[i]);
    }
    JoinedEntriesAreSplit(entries);
    EntriesParsed(entries, ups);
  }

  // ---- Which entries count ----

  lemma {:induction false} SplitParts(s: string, sep: char)
    ensures Join(Split(s, sep), sep) == s
    ensures forall i :: 0 <= i < |Split(s, sep)| ==> Without(Split(s, sep)[i], sep)
  {
    if s != [] {
      var rest := Split(s[1..], sep);
      SplitParts(s[1..], sep);
      assert s == [s[0]] + s[1..];
      if s[0] == sep {
        assert ([[]] + rest)[1..] == rest;
      } else {
        assert ([[s[0]] + rest[0]] + rest[1..])[1..] == rest[1..];
        assert forall i :: 0 < i < |rest| ==> ([[s[0]] + rest[0]] + rest[1..])[i] == rest[i];
        if |rest| > 1 { assert Join(rest, sep) == rest[0] + [sep] + Join(rest[1..], sep); }
      }
    }
  }

  /** The entry is `user`, '=', `privs`, '/' and `grantor`, with no other '=' and no '/' in the last two. */
  ghost predicate Reads(entry: string, user: string, privs: string, grantor: string) {
    && entry == user + ['='] + (privs + ['/'] + grantor)
    && Without(user, '=') && Without(privs, '=') && Without(grantor, '=')
    && Without(privs, '/') && Without(grantor, '/')
  }

  lemma SplitInTwo(s: string, sep: char) returns (x: string, y: string)
    requires |Split(s, sep)| == 2
    ensures Split(s, sep) == [x, y] && s == x + [sep] + y && Without(x, sep) && Without(y, sep)
  {
    SplitParts(s, sep);
    var parts := Split(s, sep);
    x, y := parts[0], parts[1];
    assert parts == [x, y] && parts[1..] == [y];
  }

  /** An entry counts exactly if it is of that form, and then says what its parts say; the grantor is dropped. */
  lemma EntryCountsExactly(entry: string)
    ensures ParseEntry(entry).Some? <==> exists user, privs, grantor :: Reads(entry, user, privs, grantor)
    ensures forall user, privs, grantor :: Reads(entry, user, privs, grantor)
              ==> ParseEntry(entry) == Some(UserPrivileges(user, ParsePrivileges(privs)))
  {
    forall user, privs, grantor | Reads(entry, user, privs, grantor)
      ensures ParseEntry(entry) == Some(UserPrivileges(user, ParsePrivileges(privs)))
    {
      WithoutParts(user, privs, grantor, '=');
      SplitPair(user, '=', privs + ['/'] + grantor);
      SplitPair(privs, '/', grantor);
    }
    if ParseEntry(entry).Some? {
      var user, rest := SplitInTwo(entry, '=');
      var privs, grantor := SplitInTwo(rest, '/');
      assert Without(privs, '=') by { assert forall i :: 0 <= i < |privs| ==> rest[i] == privs[i]; }
      assert Without(grantor, '=') by {
        assert forall i :: 0 <= i < |grantor| ==> rest[|privs| + 1 + i] == grantor[i];
      }
      assert Reads(entry, user, privs, grantor);
    }
  }

  ghost predicate AllBraces(s: string) {
    forall i :: 0 <= i < |s| ==> IsBrace(s[i])
  }

  lemma {:induction false} TrimmedLeft(s: string) returns (left: string)
    ensures AllBraces(left) && s == left + TrimLeft(s)
    ensures TrimLeft(s) == "" || !IsBrace(TrimLeft(s)[0])
  {
    left := "";
    if s != [] && IsBrace(s[0]) {
      left := TrimmedLeft(s[1..]);
      left := [s[0]] + left;
    }
  }

  lemma {:induction false} TrimmedRight(s: string) returns (right: string)
    ensures AllBraces(right) && s == TrimRight(s) + right
    ensures TrimRight(s) == "" || !IsBrace(TrimRight(s)[|TrimRight(s)| - 1])
  {
    right := "";
    if s != [] && IsBrace(s[|s| - 1]) {
      right := TrimmedRight(s[..|s| - 1]);
      right := right + [s[|s| - 1]];
    }
  }

  /** Nothing but the braces at both ends is taken off, and all of them are. */
  lemma TrimTakesBraces(s: string) returns (left: string, right: string)
    ensures AllBraces(left) && AllBraces(right) && s == left + Trim(s) + right
    ensures Trim(s) == "" || Braceless(Trim(s))
  {
    left := TrimmedLeft(s);
    right := TrimmedRight(TrimLeft(s));
    assert Trim(s) != "" ==> Trim(s)[0] == TrimLeft(s)[0];
  }

  /** A list as a server writes it, with two grantees: what stands where. */
  lemma TwoGrantees(user: string, privs: string, grantor: string, user2: string, privs2: string, grantor2: string)
    requires Clean(user) && Clean(privs) && Clean(grantor) && Clean(user2) && Clean(privs2) && Clean(grantor2)
    ensures Parse("{" + (user + "=" + (privs + "/" + grantor) + "," + (user2 + "=" + (privs2 + "/" + grantor2))) + "}")
         == [UserPrivileges(user, ParsePrivileges(privs)), UserPrivileges(user2, ParsePrivileges(privs2))]
  {
    var x, y := user + "=" + (privs + "/" + grantor), user2 + "=" + (privs2 + "/" + grantor2);
    CleanEntry(user, privs, grantor);
    CleanEntry(user2, privs2, grantor2);
    assert [x, y][1..] == [y];
    assert Join([x, y], ',') == x + [','] + y == x + "," + y;
    JoinedEntriesAreSplit([x, y]);
    var up, up2 := UserPrivileges(user, ParsePrivileges(privs)), UserPrivileges(user2, ParsePrivileges(privs2));
    EntriesParsed([x, y], [up, up2]);
  }

  lemma CleanEntry(user: string, privs: string, grantor: string)
    requires Clean(user) && Clean(privs) && Clean(grantor)
    ensures var entry := user + "=" + (privs + "/" + grantor);
            && Braceless(entry) && Without(entry, ',')
            && ParseEntry(entry) == Some(UserPrivileges(user, ParsePrivileges(privs)))
  {
    var entry := user + "=" + (privs + "/" + grantor);
    WithoutParts(user, privs, grantor, ',');
    assert entry[0] == if user == "" then '=' else user[0];
    assert entry[|entry| - 1] == if grantor == "" then '/' else grantor[|grantor| - 1];
    EntryCountsExactly(entry);
    assert Reads(entry, user, privs, grantor);
  }

  /** A star after a privilege is its grant option, and any other character is a privilege of its own. */
  lemma StarGivesOption(c: char, rest: string)
    ensures ParsePrivileges([c, '*'] + rest) == [PrivilegeGrant(c, true)] + ParsePrivileges(rest)
    ensures rest == "" || rest[0] != '*' ==>
              ParsePrivileges([c] + rest) == [PrivilegeGrant(c, false)] + ParsePrivileges(rest)
  {
    assert ([c, '*'] + rest)[2..] == rest && ([c] + rest)[1..] == rest;
  }
}
