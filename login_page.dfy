/**
 * The sign-in page: the credential lookup, and the student-list import that
 * parses comma-separated text and merges the rows into the stored accounts.
 * Reading the file and the alert are not modelled; the text is an input and
 * the reported count an output.
 */
module LoginPage {
  import opened Collections
  import opened Text
  import opened Types
  import opened Storage

  /** `u` is the account `regNo` names and `password` opens; only the key is trimmed. */
  predicate Opens(u: User, regNo: string, password: string) {
    u.regNo == Trim(regNo) && u.password == Some(password)
  }

  /** `handleLogin`'s lookup: the first account the credentials open. */
  function FindLogin(users: seq<User>, regNo: string, password: string): (r: Option<User>)
    ensures r.Some? <==> exists u :: u in users && Opens(u, regNo, password)
    ensures r.Some? ==> r.value in users && Opens(r.value, regNo, password)
    ensures r.Some? ==> exists i :: 0 <= i < |users| && users[i] == r.value
                                   && forall j :: 0 <= j < i ==> !Opens(users[j], regNo, password)
  {
    FindFirst(users, (u: User) => Opens(u, regNo, password))
  }

  /** An account without a stored password can never sign in. */
  lemma NoPasswordNoLogin(users: seq<User>, regNo: string, password: string, u: User)
    requires u.password.None?
    ensures FindLogin(users, regNo, password) != Some(u)
  {
  }

  /** The lookup sees only the trimmed key: keys that trim alike find the same account. */
  lemma LoginTrimsKey(users: seq<User>, regNo: string, other: string, password: string)
    requires Trim(other) == Trim(regNo)
    ensures FindLogin(users, other, password) == FindLogin(users, regNo, password)
  {
    FindFirstAgree(users, (u: User) => Opens(u, other, password), (u: User) => Opens(u, regNo, password));
  }

  /** The error shown when no account matches. */
  const InvalidCredentials := "Invalid Registration Number or Password. Please check your credentials."

  const DefaultDepartment := "Agriculture"
  const DefaultPassword := "khalid"
  const DefaultBio := "University Student"

  function AvatarFor(reg: string): string {
    "https://picsum.photos/seed/" + reg + "/200"
  }

  /** A destructured field: a missing field is `undefined`, which behaves as the empty text. */
  function Field(fields: seq<string>, i: nat): string {
    if i < |fields| then fields[i] else ""
  }

  /**
   * The account a row's trimmed fields describe: name, key and department
   * from the first three; none without a name or a key.
   */
  function RowUser(fields: seq<string>): (r: Option<User>)
    ensures r.Some? <==> Field(fields, 0) != "" && Field(fields, 1) != ""
    ensures r.Some? ==> r.value.name == Field(fields, 0) && r.value.regNo == Field(fields, 1)
    ensures r.Some? ==> r.value.department == if Field(fields, 2) != "" then Field(fields, 2) else DefaultDepartment
    ensures r.Some? ==> r.value.avatar == AvatarFor(r.value.regNo)
    ensures r.Some? ==> r.value.password == Some(DefaultPassword) && r.value.bio == Some(DefaultBio)
  {
    var name := Field(fields, 0);
    var reg := Field(fields, 1);
    var dept := Field(fields, 2);
    if name != "" && reg != "" then
      Some(User(reg, name, if dept != "" then dept else DefaultDepartment, AvatarFor(reg),
                Some(DefaultPassword), Some(DefaultBio)))
    else None
  }

  /** One data line: split on commas and trim each piece. */
  function ParseRow(line: string): (r: Option<User>)
    ensures r.Some? <==> |Split(line, ',')| >= 2 && Trim(Split(line, ',')[0]) != "" && Trim(Split(line, ',')[1]) != ""
    ensures r.Some? ==> r.value.name == Trim(Split(line, ',')[0]) && r.value.regNo == Trim(Split(line, ',')[1])
    ensures r.Some? ==>
      r.value.department == if |Split(line, ',')| >= 3 && Trim(Split(line, ',')[2]) != "" then Trim(Split(line, ',')[2]) else DefaultDepartment
    ensures r.Some? ==> r.value.password == Some(DefaultPassword)
  {
    RowUser(MapSeq(Split(line, ','), Trim))
  }

  /** Text with no white space at either end, which `trim` leaves alone. */
  predicate Trimmed(s: string) {
    s == [] || (!IsSpace(s[0]) && !IsSpace(s[|s| - 1]))
  }

  /**
   * Round trip: a line joined from trimmed, comma-free fields parses to the
   * account those fields describe; a missing or empty department becomes the
   * default, fields after the third are ignored, and a missing name or key
   * gives no account.
   */
  lemma ParseRowOfFields(parts: seq<string>)
    requires |parts| >= 1
    requires forall i :: 0 <= i < |parts| ==> Trimmed(parts[i]) && ',' !in parts[i]
    ensures ParseRow(Join(parts, ',')) ==
      if Field(parts, 0) != "" && Field(parts, 1) != "" then
        Some(User(parts[1], parts[0], if Field(parts, 2) != "" then parts[2] else DefaultDepartment,
                  AvatarFor(parts[1]), Some(DefaultPassword), Some(DefaultBio)))
      else None
  {
    SplitJoin(parts, ',');
    TrimFields(parts);
  }

  /** Trimming fields that are already trimmed changes none of them. */
  lemma TrimFields(parts: seq<string>)
    requires forall i :: 0 <= i < |parts| ==> Trimmed(parts[i])
    ensures MapSeq(parts, Trim) == parts
  {
    var fields := MapSeq(parts, Trim);
    forall i | 0 <= i < |parts| ensures fields[i] == parts[i] {
      TrimTrimmed(parts[i]);
    }
  }

  /** A line whose first field is blank yields no account. */
  lemma ParseRowNeedsName(line: string)
    requires AllSpace(Split(line, ',')[0])
    ensures ParseRow(line) == None
  {
  }

  /** What one line after the header contributes: nothing if blank, else its row if it has one. */
  function RowOf(line: string): (r: seq<User>)
    ensures |r| <= 1
    ensures r != [] <==> !AllSpace(line) && ParseRow(line).Some?
    ensures r != [] ==> r[0] == ParseRow(line).value
  {
    if Trim(line) == [] then []
    else match ParseRow(line)
      case None => []
      case Some(u) => [u]
  }

  /** The accounts the data lines yield, in line order. */
  function Rows(lines: seq<string>): (r: seq<User>)
    ensures forall u :: u in r ==> exists k :: 0 <= k < |lines| && ParseRow(lines[k]) == Some(u)
  {
    if lines == [] then []
    else
      var init := lines[..|lines| - 1];
      var r := Rows(init) + RowOf(lines[|lines| - 1]);
      assert forall k :: 0 <= k < |init| ==> init[k] == lines[k];
      r
  }

  /** The accounts parsed from the lines of a file; the first line is the header and is skipped. */
  function ParseLines(lines: seq<string>): (r: seq<User>)
    ensures forall u :: u in r ==> u.name != "" && u.regNo != "" && u.password == Some(DefaultPassword)
  {
    if lines == [] then []
    else
      RowsShape(lines[1..]);
      Rows(lines[1..])
  }

  /** The header line never contributes, whatever it holds. */
  lemma ParseLinesIgnoresHeader(h1: string, h2: string, rest: seq<string>)
    ensures ParseLines([h1] + rest) == ParseLines([h2] + rest)
  {
    assert ([h1] + rest)[1..] == rest == ([h2] + rest)[1..];
  }

  /** Each data line yields at most one account, and each account parsed is well formed. */
  lemma {:induction false} RowsShape(lines: seq<string>)
    ensures |Rows(lines)| <= |lines|
    ensures forall u :: u in Rows(lines) ==>
      && u.name != "" && u.regNo != "" && u.department != ""
      && u.password == Some(DefaultPassword) && u.bio == Some(DefaultBio) && u.avatar == AvatarFor(u.regNo)
  {
    if lines != [] {
      RowsShape(lines[..|lines| - 1]);
    }
  }

  /** Reading one more data line adds what that line yields. */
  lemma ParseLinesSnoc(lines: seq<string>, index: nat)
    requires 1 <= index < |lines|
    ensures ParseLines(lines[..index + 1]) == ParseLines(lines[..index]) + RowOf(lines[index])
  {
    assert lines[..index + 1][1..] == lines[1..index] + [lines[index]];
    assert lines[..index][1..] == lines[1..index];
  }

  /** The loop over the lines of the file. */
  method ParseStudents(text: string) returns (newUsers: seq<User>)
    ensures newUsers == ParseLines(Split(text, '\n'))
  {
    var lines := Split(text, '\n');
    newUsers := [];
    for index := 0 to |lines|
      invariant newUsers == ParseLines(lines[..index])
    {
      var line := lines[index];
      if index == 0 {
        assert lines[..1][1..] == [];
        continue;
      }
      ParseLinesSnoc(lines, index);
      if Trim(line) == [] {
        assert RowOf(line) == [];
        continue;
      }
      var row := ParseRow(line);
      if row.Some? {
        assert RowOf(line) == [row.value];
        newUsers := newUsers + [row.value];
      } else {
        assert RowOf(line) == [];
      }
    }
    assert lines[..|lines|] == lines;
  }

  /** The merge: each parsed account is appended unless its key is already present. */
  function Merged(existing: seq<User>, news: seq<User>): (r: seq<User>)
    ensures forall u :: u in r ==> u in existing || u in news
  {
    if news == [] then existing
    else
      var m := Merged(existing, news[..|news| - 1]);
      var nu := news[|news| - 1];
      assert news == news[..|news| - 1] + [nu];
      if FindUser(m, nu.regNo).None? then m + [nu] else m
  }

  /** The loop of the merge. */
  method MergeUsers(existing: seq<User>, news: seq<User>) returns (merged: seq<User>)
    ensures merged == Merged(existing, news)
  {
    merged := existing;
    for k := 0 to |news|
      invariant merged == Merged(existing, news[..k])
    {
      var nu := news[k];
      assert news[..k + 1][..k] == news[..k];
      if FindUser(merged, nu.regNo).None? {
        merged := merged + [nu];
      }
    }
    assert news[..|news|] == news;
  }

  /** The stored accounts stay first, in order. */
  lemma {:induction false} MergedKeepsExisting(existing: seq<User>, news: seq<User>)
    ensures existing <= Merged(existing, news)
  {
    if news != [] {
      MergedKeepsExisting(existing, news[..|news| - 1]);
    }
  }

  /**
   * The merged list answers a key lookup with the stored account when the key
   * was stored, and otherwise with the first parsed account carrying it: the
   * first occurrence wins.
   */
  lemma {:induction false} MergedLookup(existing: seq<User>, news: seq<User>, r: string)
    ensures FindUser(Merged(existing, news), r) ==
      if r in RegNos(existing) then FindUser(existing, r) else FindUser(news, r)
  {
    if news != [] {
      var init := news[..|news| - 1];
      var nu := news[|news| - 1];
      assert news == init + [nu];
      var m := Merged(existing, init);
      MergedLookup(existing, init, r);
      FindUserAppend(init, [nu], r);
      if FindUser(m, nu.regNo).None? {
        FindUserAppend(m, [nu], r);
        MergedLookup(existing, init, nu.regNo);
      } else if r == nu.regNo {
        MergedLookup(existing, init, r);
      }
    }
  }

  /** Keys stay unique if they were unique before. */
  lemma {:induction false} MergedUnique(existing: seq<User>, news: seq<User>)
    requires UniqueRegNos(existing)
    ensures UniqueRegNos(Merged(existing, news))
  {
    if news != [] {
      var init := news[..|news| - 1];
      var nu := news[|news| - 1];
      var m := Merged(existing, init);
      MergedUnique(existing, init);
      if FindUser(m, nu.regNo).None? {
        var r := m + [nu];
        forall i, j | 0 <= i < j < |r| ensures r[i].regNo != r[j].regNo {
          if j == |m| {
            assert r[i] == m[i] && m[i] in m;
          }
        }
      }
    }
  }

  /** The merge adds at most one account per parsed row, so the reported count can overstate it. */
  lemma {:induction false} MergedGrowth(existing: seq<User>, news: seq<User>)
    ensures |existing| <= |Merged(existing, news)| <= |existing| + |news|
  {
    if news != [] {
      MergedGrowth(existing, news[..|news| - 1]);
    }
  }

  /** A row whose key is already stored is counted as imported but not added. */
  lemma ImportOvercounts()
    ensures var u := User("R1", "A", "CS", "", None, None);
            var v := User("R1", "B", DefaultDepartment, AvatarFor("R1"), Some(DefaultPassword), Some(DefaultBio));
            Merged([u], [v]) == [u]
  {
    var u := User("R1", "A", "CS", "", None, None);
    var v := User("R1", "B", DefaultDepartment, AvatarFor("R1"), Some(DefaultPassword), Some(DefaultBio));
    assert Merged([u], [v][..0]) == [u];
    FindUserUnique([u], u);
  }

  /** The page's state. */
  class LoginView {
    var error: string
    var importMode: bool

    constructor ()
      ensures error == "" && !importMode
    {
      error := "";
      importMode := false;
    }

    /** `handleLogin`: the account found becomes current; otherwise the error is shown. */
    method HandleLogin(store: Store, regNo: string, password: string)
      modifies this`error, store`current
      ensures FindLogin(store.users, regNo, password).Some? ==>
        store.current == FindLogin(store.users, regNo, password) && error == old(error)
      ensures FindLogin(store.users, regNo, password).None? ==>
        store.current == old(store.current) && error == InvalidCredentials
    {
      var users := store.users;
      var user := FindFirst(users, (u: User) => u.regNo == Trim(regNo) && u.password == Some(password));
      if user.Some? {
        store.current := user;
      } else {
        error := InvalidCredentials;
      }
    }

    /**
     * `handleFileUpload` once the text is read: parse, merge, save; the count
     * reported is the number of rows parsed.
     */
    method HandleFileUpload(store: Store, text: string) returns (imported: nat)
      modifies this`importMode, store`users
      ensures store.users == Merged(old(store.users), ParseLines(Split(text, '\n')))
      ensures imported == |ParseLines(Split(text, '\n'))|
      ensures !importMode
    {
      var newUsers := ParseStudents(text);
      var existingUsers := store.users;
      var mergedUsers := MergeUsers(existingUsers, newUsers);
      store.users := mergedUsers;
      imported := |newUsers|;
      importMode := false;
    }
  }
}
