/** The `User` entity (src/modules/users/domain/entities/user.entity.ts). */
module UserEntity {
  import opened Wrappers

  datatype User = User(
    id: Option<string>,
    email: string,
    password: string,
    firstName: Option<string>,
    lastName: Option<string>,
    isActive: bool,
    createdAt: int,
    updatedAt: int)

  /** `User.create`: active, id left to the database. */
  function Create(email: string, password: string, firstName: Option<string>, lastName: Option<string>,
                  now: int): (u: User)
    ensures u.id.None? && u.isActive && IsActiveUser(u)
    ensures u.email == email && u.password == password
    ensures u.firstName == firstName && u.lastName == lastName
  {
    User(None, email, password, firstName, lastName, true, now, now)
  }

  /** `isActiveUser()`. */
  function IsActiveUser(u: User): (r: bool)
    ensures r == u.isActive
  {
    u.isActive
  }

  /**
   * The characters `String.prototype.trim` removes: the ECMAScript WhiteSpace and
   * LineTerminator code points.
   */
  predicate IsWhitespace(c: char)
  {
    c == ' ' || c == '\t' || c == '\n' || c == '\r' || c == '\U{000B}' || c == '\U{000C}'
    || c == '\U{00A0}' || c == '\U{FEFF}' || c == '\U{1680}' || ('\U{2000}' <= c <= '\U{200A}')
    || c == '\U{2028}' || c == '\U{2029}' || c == '\U{202F}' || c == '\U{205F}' || c == '\U{3000}'
  }

  /** Drops leading whitespace: the result is the suffix that starts at the first other character. */
  function TrimStart(s: string): (r: string)
    ensures |r| <= |s| && r == s[|s| - |r|..]
    ensures r == [] || !IsWhitespace(r[0])
  {
    if |s| > 0 && IsWhitespace(s[0]) then TrimStart(s[1..]) else s
  }

  /** Only whitespace precedes the suffix `TrimStart` keeps. */
  lemma {:induction false} TrimStartDropsWhitespace(s: string)
    ensures forall k :: 0 <= k < |s| - |TrimStart(s)| ==> IsWhitespace(s[k])
  {
    if |s| > 0 && IsWhitespace(s[0]) {
      TrimStartDropsWhitespace(s[1..]);
      forall k | 1 <= k < |s| - |TrimStart(s)| ensures IsWhitespace(s[k]) {
        assert s[k] == s[1..][k - 1];
      }
    }
  }

  /** Drops trailing whitespace: the result is the prefix that ends at the last other character. */
  function TrimEnd(s: string): (r: string)
    ensures |r| <= |s| && r == s[..|r|]
    ensures r == [] || !IsWhitespace(r[|r| - 1])
  {
    if |s| > 0 && IsWhitespace(s[|s| - 1]) then TrimEnd(s[..|s| - 1]) else s
  }

  /** Only whitespace follows the prefix `TrimEnd` keeps. */
  lemma {:induction false} TrimEndDropsWhitespace(s: string)
    ensures forall k :: |TrimEnd(s)| <= k < |s| ==> IsWhitespace(s[k])
  {
    if |s| > 0 && IsWhitespace(s[|s| - 1]) {
      TrimEndDropsWhitespace(s[..|s| - 1]);
      forall k | |TrimEnd(s)| <= k < |s| - 1 ensures IsWhitespace(s[k]) {
        assert s[k] == s[..|s| - 1][k];
      }
    }
  }

  /** A prefix of a suffix is an infix. */
  lemma SliceOfSuffix(s: string, i: int, n: int)
    requires 0 <= i <= |s| && 0 <= n <= |s| - i
    ensures s[i..][..n] == s[i..i + n]
  {
  }

  /** `trim()`: the longest infix with no whitespace at either end. */
  function Trim(s: string): (r: string)
    ensures var i := |s| - |TrimStart(s)|; i + |r| <= |s| && r == s[i..i + |r|]
  {
    var t := TrimStart(s);
    var r := TrimEnd(t);
    SliceOfSuffix(s, |s| - |t|, |r|);
    r
  }

  /** `trim()` leaves no whitespace at either end. */
  lemma TrimLeavesNoOuterWhitespace(s: string)
    ensures var r := Trim(s); r == [] || (!IsWhitespace(r[0]) && !IsWhitespace(r[|r| - 1]))
  {
    var t := TrimStart(s);
    var r := TrimEnd(t);
    if r != [] {
      assert r[0] == t[0];
    }
  }

  /** `trim()` yields the empty string exactly for strings made only of whitespace. */
  lemma TrimEmptyIffBlank(s: string)
    ensures Trim(s) == [] <==> forall k :: 0 <= k < |s| ==> IsWhitespace(s[k])
  {
    var t := TrimStart(s);
    if Trim(s) == [] {
      TrimStartDropsWhitespace(s);
      if t != [] {
        TrimEndDropsWhitespace(t);
      }
    } else {
      assert Trim(s)[0] == s[|s| - |t|];
    }
  }

  /** Trimming a string that already has no whitespace at either end changes nothing. */
  lemma TrimUnchanged(s: string)
    requires s == [] || (!IsWhitespace(s[0]) && !IsWhitespace(s[|s| - 1]))
    ensures Trim(s) == s
  {
  }

  /** The `fullName` getter: `${firstName || ''} ${lastName || ''}`.trim(). */
  function FullName(u: User): (r: string)
    ensures r == [] || (!IsWhitespace(r[0]) && !IsWhitespace(r[|r| - 1]))
  {
    TrimLeavesNoOuterWhitespace(u.firstName.GetOr("") + " " + u.lastName.GetOr(""));
    Trim(u.firstName.GetOr("") + " " + u.lastName.GetOr(""))
  }

  /** With neither name set the full name is empty. */
  lemma FullNameOfNoNames(u: User)
    requires u.firstName.None? && u.lastName.None?
    ensures FullName(u) == ""
  {
    assert TrimStart(" ") == "";
  }

  /** With both names set and free of surrounding whitespace, the full name joins them with one space. */
  lemma FullNameOfBothNames(u: User, first: string, last: string)
    requires u.firstName == Some(first) && u.lastName == Some(last)
    requires first != [] && !IsWhitespace(first[0])
    requires last != [] && !IsWhitespace(last[|last| - 1])
    ensures FullName(u) == first + " " + last
  {
    var s := first + " " + last;
    assert s[0] == first[0] && s[|s| - 1] == last[|last| - 1];
    TrimUnchanged(s);
  }
}
