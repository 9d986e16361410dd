/**
 * The login page: the typed name is trimmed, looked up case-insensitively in the fixed
 * member list, and on a match that member becomes the current user.
 */
module LoginPage {
  import opened Wrappers
  import opened Seqs
  import opened CurrentUser

  datatype Member = Member(name: string, role: string)

  /** `FRONTEND_MEMBERS` */
  const FRONTEND_MEMBERS: seq<Member> := [
    Member("Phurin", "senior"),
    Member("Pitiphong", "junior"),
    Member("Montra", "junior"),
    Member("Supphawit", "senior")]

  const LOGIN_ERROR := "ชื่อนี้ไม่มีในรายชื่อสมาชิก ไม่สามารถเข้าสู่ระบบได้"

  const DASHBOARD_PATH := "/dashboard"

  /** The characters `String.prototype.trim` removes: ECMAScript white space and line terminators. */
  predicate IsSpace(c: char) {
    || c == ' ' || c == '\t' || c == '\n' || c == '\r'
    || c == '\U{000B}' || c == '\U{000C}' || c == '\U{00A0}' || c == '\U{FEFF}'
    || c == '\U{1680}' || ('\U{2000}' <= c <= '\U{200A}')
    || c == '\U{2028}' || c == '\U{2029}' || c == '\U{202F}' || c == '\U{205F}' || c == '\U{3000}'
  }

  /** Where the white space running from index `i` of `s` ends. */
  function SpaceRunEnd(s: string, i: nat): (e: nat)
    requires i <= |s|
    ensures i <= e <= |s|
    ensures forall k :: i <= k < e ==> IsSpace(s[k])
    ensures e < |s| ==> !IsSpace(s[e])
    decreases |s| - i
  {
    if i < |s| && IsSpace(s[i]) then SpaceRunEnd(s, i + 1) else i
  }

  /** Where the white space running back from index `j` of `s`, not below `lo`, starts. */
  function SpaceRunStart(s: string, lo: nat, j: nat): (b: nat)
    requires lo <= j <= |s|
    ensures lo <= b <= j
    ensures forall k :: b <= k < j ==> IsSpace(s[k])
    ensures lo < b ==> !IsSpace(s[b - 1])
    decreases j
  {
    if lo < j && IsSpace(s[j - 1]) then SpaceRunStart(s, lo, j - 1) else j
  }

  /** `s.trim()`: a slice of `s` with only white space cut off either end, and none left at either end. */
  function Trim(s: string): (r: string)
    ensures exists i, j :: 0 <= i <= j <= |s| && r == s[i..j] &&
                           (forall k :: 0 <= k < i ==> IsSpace(s[k])) && (forall k :: j <= k < |s| ==> IsSpace(s[k]))
    ensures r != [] ==> !IsSpace(r[0]) && !IsSpace(r[|r| - 1])
    ensures r == [] <==> forall k :: 0 <= k < |s| ==> IsSpace(s[k])
  {
    var i := SpaceRunEnd(s, 0);
    var j := SpaceRunStart(s, i, |s|);
    assert i < |s| ==> i < j;
    s[i..j]
  }

  /** `toLowerCase` on one character, for the Latin capitals. */
  function LowerChar(c: char): (r: char)
    ensures 'A' <= c <= 'Z' ==> r as int == c as int + 32
    ensures !('A' <= c <= 'Z') ==> r == c
  {
    if 'A' <= c <= 'Z' then (c as int + 32) as char else c
  }

  function ToLower(s: string): (r: string)
    ensures |r| == |s|
    ensures forall k :: 0 <= k < |s| ==> r[k] == LowerChar(s[k])
  {
    Map(s, LowerChar)
  }

  predicate SameName(a: string, b: string) {
    ToLower(a) == ToLower(b)
  }

  /** `FRONTEND_MEMBERS.find(...)`: the first member whose name matches, ignoring case. */
  function FindMember(members: seq<Member>, name: string): (r: Option<Member>)
    ensures r.None? <==> forall i :: 0 <= i < |members| ==> !SameName(members[i].name, name)
    ensures r.Some? ==> exists i :: 0 <= i < |members| && members[i] == r.value && SameName(r.value.name, name) &&
                                    forall j :: 0 <= j < i ==> !SameName(members[j].name, name)
  {
    if members == [] then None
    else if SameName(members[0].name, name) then Some(members[0])
    else
      var r := FindMember(members[1..], name);
      assert forall i :: 1 <= i < |members| ==> members[1..][i - 1] == members[i];
      r
  }

  /** What `handleSubmit` does with the typed text. */
  datatype Decision = Ignore | Reject | Accept(user: User)

  function Decide(members: seq<Member>, nameInput: string): (d: Decision)
    ensures d.Ignore? <==> Trim(nameInput) == ""
    ensures d.Reject? <==> Trim(nameInput) != "" && FindMember(members, Trim(nameInput)).None?
  {
    var trimmed := Trim(nameInput);
    if trimmed == "" then Ignore
    else match FindMember(members, trimmed)
      case None => Reject
      case Some(m) => Accept(User(m.name, m.role))
  }

  /**
   * An accepted login sets the canonical name and role of the first member whose name
   * matches the trimmed input, never the text as typed.
   */
  lemma AcceptedIsMember(members: seq<Member>, nameInput: string)
    requires Decide(members, nameInput).Accept?
    ensures var u := Decide(members, nameInput).user;
            exists i :: 0 <= i < |members| && members[i].name == u.name && members[i].role == u.role &&
                        SameName(members[i].name, Trim(nameInput)) &&
                        forall j :: 0 <= j < i ==> !SameName(members[j].name, Trim(nameInput))
  {
    var m := FindMember(members, Trim(nameInput));
    assert m.Some?;
  }

  /** Case-insensitive: inputs that agree once trimmed and lower-cased are decided alike. */
  lemma DecideIgnoresCase(members: seq<Member>, a: string, b: string)
    requires ToLower(Trim(a)) == ToLower(Trim(b))
    ensures Decide(members, a) == Decide(members, b)
  {
    assert |Trim(a)| == |Trim(b)|;
    FindMemberByLower(members, Trim(a), Trim(b));
  }

  lemma {:induction false} FindMemberByLower(members: seq<Member>, a: string, b: string)
    requires ToLower(a) == ToLower(b)
    ensures FindMember(members, a) == FindMember(members, b)
    decreases |members|
  {
    if members != [] {
      FindMemberByLower(members[1..], a, b);
    }
  }

  /**
   * `handleSubmit`. Blank input: nothing happens. An unknown name: the error is shown and
   * the current user stays as it was. A known name: that member is stored as the current
   * user, the listeners are notified, and the page goes to the dashboard.
   */
  method HandleSubmit(store: UserStore, nameInput: string) returns (error: Option<string>, route: Option<string>)
    requires store.Valid()
    modifies store
    ensures store.Valid()
    ensures Decide(FRONTEND_MEMBERS, nameInput).Ignore? ==> unchanged(store) && error.None? && route.None?
    ensures Decide(FRONTEND_MEMBERS, nameInput).Reject? ==>
              unchanged(store) && error == Some(LOGIN_ERROR) && route.None?
    ensures Decide(FRONTEND_MEMBERS, nameInput).Accept? ==>
              && store.storage == old(store.storage)[CURRENT_USER_KEY :=
                                                       store.stringify(Decide(FRONTEND_MEMBERS, nameInput).user)]
              && store.notified == old(store.notified) + store.listeners
              && store.listeners == old(store.listeners) && store.cachedRaw == old(store.cachedRaw)
              && store.cachedSnapshot == old(store.cachedSnapshot) && store.parses == old(store.parses)
              && error.None? && route == Some(DASHBOARD_PATH)
  {
    var trimmed := Trim(nameInput);
    if trimmed == "" {
      return None, None;
    }
    var member := FindMember(FRONTEND_MEMBERS, trimmed);
    if member.None? {
      return Some(LOGIN_ERROR), None;
    }
    store.SetUser(Some(User(member.value.name, member.value.role)));
    error, route := None, Some(DASHBOARD_PATH);
  }
}
