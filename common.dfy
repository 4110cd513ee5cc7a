/**
 * Values shared by every handler: optional values, the uniform error
 * envelope `{error: {message, code}}`, the truthiness test that the
 * handlers apply to request fields, and the few string primitives the
 * code uses (ASCII case mapping, the JavaScript white-space class,
 * `startsWith`, `includes`).
 */
module Common {

  datatype Option<T> = None | Some(value: T)

  /** Row identifiers (`id`, `user_id`), handed out by the database. */
  type Id = nat

  /** `req.user` as the authentication gate attaches it: the token's claims. */
  datatype Identity = Identity(id: Id, email: string, role: string)

  /** The machine-readable `code` strings of the error envelope. */
  datatype Code =
    | MissingAuth | InsufficientPermissions | InternalError
    | MissingToken | TokenExpired | InvalidToken
    | MissingCredentials | InvalidCredentials
    | CompanyNotFound | MissingRequiredFields | CompanyExists
    | AccessDenied | UserNotFound | InvalidEmail | DuplicateEmail
    | DuplicateCheckin | NoCheckin | AlreadyCheckedOut | MissingDate | MissingStartDate
    | InvalidLeaveType | InvalidDateRange | LeaveNotFound | InvalidStatus
    | InvalidMonth | InvalidNumericValue | DuplicatePayroll | PayrollNotFound | NoUpdates

  /** What a handler sends: a status with a JSON body, or the error envelope. */
  datatype Reply<T> =
    | Success(status: nat, body: T)
    | Failure(status: nat, code: Code, message: string)

  const InternalMessage := "An error occurred processing your request"

  /** The generic 500 reply every handler's `catch` block sends. */
  function Internal<T>(): (r: Reply<T>)
    ensures r.Failure? && r.status == 500 && r.code == InternalError
  {
    Failure(500, InternalError, InternalMessage)
  }

  /** JavaScript truthiness of an optional string field: present and non-empty. */
  predicate Given(o: Option<string>) {
    o.Some? && o.value != ""
  }

  /** JavaScript truthiness of an optional number field: present and non-zero. */
  predicate GivenNum(o: Option<int>) {
    o.Some? && o.value != 0
  }

  /** `x || null` on an optional string: the empty string becomes null. */
  function OrNull(o: Option<string>): (r: Option<string>)
    ensures r.Some? <==> Given(o)
    ensures r.Some? ==> r == o
  {
    if Given(o) then o else None
  }

  /** The JavaScript white-space class (`\s`, and what `trim` removes). */
  predicate IsWhitespace(c: char) {
    || c == '\t' || c == '\n' || c == '\U{000B}' || c == '\U{000C}' || c == '\r'
    || c == ' ' || c == '\U{00A0}' || c == '\U{1680}'
    || ('\U{2000}' <= c <= '\U{200A}')
    || c == '\U{2028}' || c == '\U{2029}' || c == '\U{202F}' || c == '\U{205F}'
    || c == '\U{3000}' || c == '\U{FEFF}'
  }

  predicate IsUpper(c: char) { 'A' <= c <= 'Z' }
  predicate IsLower(c: char) { 'a' <= c <= 'z' }

  function LowerChar(c: char): (r: char)
    ensures !IsUpper(r)
    ensures IsUpper(c) ==> r as int == c as int + 32
    ensures !IsUpper(c) ==> r == c
  {
    if IsUpper(c) then (c as int + 32) as char else c
  }

  function UpperChar(c: char): (r: char)
    ensures !IsLower(r)
    ensures IsLower(c) ==> r as int == c as int - 32
    ensures !IsLower(c) ==> r == c
  {
    if IsLower(c) then (c as int - 32) as char else c
  }

  /** `toLowerCase`, restricted to the ASCII letters. */
  function ToLower(s: string): (r: string)
    ensures |r| == |s|
    ensures forall i :: 0 <= i < |s| ==> r[i] == LowerChar(s[i])
  {
    seq(|s|, i requires 0 <= i < |s| => LowerChar(s[i]))
  }

  /** `toUpperCase`, restricted to the ASCII letters. */
  function ToUpper(s: string): (r: string)
    ensures |r| == |s|
    ensures forall i :: 0 <= i < |s| ==> r[i] == UpperChar(s[i])
  {
    seq(|s|, i requires 0 <= i < |s| => UpperChar(s[i]))
  }

  /** No character of the string is an upper-case letter. */
  predicate AllLower(s: string) {
    forall i :: 0 <= i < |s| ==> !IsUpper(s[i])
  }

  lemma ToLowerIsLower(s: string)
    ensures AllLower(ToLower(s))
  {
  }

  /** Lower-casing distributes over concatenation. */
  lemma ToLowerAppend(a: string, b: string)
    ensures ToLower(a + b) == ToLower(a) + ToLower(b)
  {
    assert forall i :: 0 <= i < |a + b| ==> ToLower(a + b)[i] == (ToLower(a) + ToLower(b))[i];
  }

  /** Lower-casing forgets what upper-casing did. */
  lemma LowerOfUpper(s: string)
    ensures ToLower(ToUpper(s)) == ToLower(s)
  {
    forall i | 0 <= i < |s|
      ensures ToLower(ToUpper(s))[i] == ToLower(s)[i]
    {
      var c := s[i];
      if IsLower(c) {
        assert UpperChar(c) as int == c as int - 32;
      }
    }
  }

  /** `s.startsWith(p)`. */
  predicate StartsWith(s: string, p: string) {
    |p| <= |s| && s[..|p|] == p
  }

  /** `t` occurs in `s` starting at position `i`. */
  predicate OccursAt(s: string, t: string, i: int) {
    0 <= i <= |s| - |t| && s[i..i + |t|] == t
  }

  /** `s.includes(t)`: `t` occurs at some position of `s`. */
  predicate Contains(s: string, t: string) {
    exists i :: 0 <= i <= |s| && OccursAt(s, t, i)
  }

  /** If a string contains `t + u` it contains `t`. */
  lemma ContainsPrefix(s: string, t: string, u: string)
    requires Contains(s, t + u)
    ensures Contains(s, t)
  {
    var i :| 0 <= i <= |s| && OccursAt(s, t + u, i);
    assert s[i..i + |t + u|] == t + u;
    assert s[i..i + |t|] == (t + u)[..|t|] == t;
    assert OccursAt(s, t, i);
  }

  /**
   * Keeps, in order, the elements that satisfy `keep` (`Array.prototype.filter`
   * or a `WHERE` clause).
   */
  function Filter<T(!new)>(s: seq<T>, keep: T -> bool): (r: seq<T>)
    ensures |r| <= |s|
    ensures forall x :: x in r <==> x in s && keep(x)
  {
    if s == [] then [] else (if keep(s[0]) then [s[0]] else []) + Filter(s[1..], keep)
  }

  /** No element occurs twice. */
  ghost predicate Distinct<T>(s: seq<T>) {
    forall i, j :: 0 <= i < j < |s| ==> s[i] != s[j]
  }

  /** Filtering a sequence without repeated elements gives one without repeated elements. */
  lemma {:induction false} FilterDistinct<T(!new)>(s: seq<T>, keep: T -> bool)
    requires Distinct(s)
    ensures Distinct(Filter(s, keep))
  {
    if s != [] {
      var tail := s[1..];
      forall i, j | 0 <= i < j < |tail| ensures tail[i] != tail[j] {
        assert tail[i] == s[i + 1] && tail[j] == s[j + 1];
      }
      FilterDistinct(tail, keep);
      var rest := Filter(tail, keep);
      var r := Filter(s, keep);
      if keep(s[0]) {
        assert r == [s[0]] + rest;
        forall i, j | 0 <= i < j < |r| ensures r[i] != r[j] {
          assert r[j] == rest[j - 1];
          if i == 0 {
            assert rest[j - 1] in rest;
            assert r[j] in tail;
            var m :| 0 <= m < |tail| && tail[m] == r[j];
            assert s[m + 1] == r[j] && s[0] != s[m + 1];
            assert r[i] == s[0];
          } else {
            assert r[i] == rest[i - 1];
          }
        }
      }
    }
  }

  /** The set of a sequence's elements. */
  ghost function Elements<T>(s: seq<T>): set<T> {
    set x | x in s
  }

  /** A sequence without repeats has as many elements as its set of elements. */
  lemma {:induction false} DistinctCard<T>(s: seq<T>)
    requires Distinct(s)
    ensures |Elements(s)| == |s|
  {
    if s != [] {
      var tail := s[1..];
      forall i, j | 0 <= i < j < |tail| ensures tail[i] != tail[j] {
        assert tail[i] == s[i + 1] && tail[j] == s[j + 1];
      }
      DistinctCard(tail);
      forall k | 0 <= k < |tail| ensures tail[k] != s[0] {
        assert tail[k] == s[k + 1];
      }
      assert s == [s[0]] + tail;
      assert Elements(s) == {s[0]} + Elements(tail);
    }
  }

  /** A value occurs at most once in a sequence without repeats. */
  lemma {:induction false} DistinctMultiplicity<T>(s: seq<T>, x: T)
    requires Distinct(s)
    ensures multiset(s)[x] <= 1
  {
    if s != [] {
      var tail := s[1..];
      forall i, j | 0 <= i < j < |tail| ensures tail[i] != tail[j] {
        assert tail[i] == s[i + 1] && tail[j] == s[j + 1];
      }
      DistinctMultiplicity(tail, x);
      forall k | 0 <= k < |tail| ensures tail[k] != s[0] {
        assert tail[k] == s[k + 1];
      }
      assert s == [s[0]] + tail;
      assert multiset(s) == multiset{s[0]} + multiset(tail);
    }
  }

  /** A rearrangement of a sequence without repeats has none either. */
  lemma DistinctPermutation<T>(s: seq<T>, t: seq<T>)
    requires Distinct(s) && multiset(s) == multiset(t)
    ensures Distinct(t)
  {
    forall i, j | 0 <= i < j < |t| ensures t[i] != t[j] {
      DistinctMultiplicity(s, t[i]);
      assert t == t[..j] + t[j..];
      assert t[i] == t[..j][i];
      assert multiset(t[..j])[t[i]] >= 1;
      assert multiset(t[j..])[t[i]] == 0;
      assert t[j] == t[j..][0];
    }
  }

  /** The body of a successful `DELETE`. */
  datatype Deleted = Deleted(message: string, id: Id)

  /**
   * The assignments `col = $n` of an `UPDATE ... SET` list built from the
   * changes `edits`: the `k`-th change takes placeholder `k + 1`.
   */
  function Numbering<C, V>(edits: seq<(C, V)>): (r: seq<(C, nat)>)
    ensures |r| == |edits|
    ensures forall k :: 0 <= k < |edits| ==> r[k] == (edits[k].0, k + 1)
  {
    if edits == [] then [] else Numbering(edits[..|edits| - 1]) + [(edits[|edits| - 1].0, |edits|)]
  }

  /** The bound values for the same `SET` list, in the same order. */
  function BoundValues<C, V, P>(edits: seq<(C, V)>, wrap: V -> P): (r: seq<P>)
    ensures |r| == |edits|
    ensures forall k :: 0 <= k < |edits| ==> r[k] == wrap(edits[k].1)
  {
    if edits == [] then [] else BoundValues(edits[..|edits| - 1], wrap) + [wrap(edits[|edits| - 1].1)]
  }
}
