/**
 * The employee directory page: the employees fetched from the server and
 * the list shown, filtered by a search term against the full name, the
 * e-mail and the login id, ignoring case.
 */
module EmployeeSearch {

  import opened Common

  /** The fields of an employee the search looks at; absent profile columns are `None`. */
  datatype EmployeeCard = EmployeeCard(
    id: Id,
    firstName: Option<string>,
    lastName: Option<string>,
    email: string,
    loginId: Option<string>)

  /** A value interpolated into a template literal: `null` prints as `"null"`. */
  function Interpolated(s: Option<string>): string {
    if s.Some? then s.value else "null"
  }

  /** `${emp.first_name} ${emp.last_name}`. */
  function FullName(e: EmployeeCard): string {
    Interpolated(e.firstName) + " " + Interpolated(e.lastName)
  }

  /** The filter callback, with `term` already known to be non-empty. */
  predicate Matches(e: EmployeeCard, term: string) {
    || Contains(ToLower(FullName(e)), ToLower(term))
    || Contains(ToLower(e.email), ToLower(term))
    || (e.loginId.Some? && e.loginId.value != "" && Contains(ToLower(e.loginId.value), ToLower(term)))
  }

  predicate MatchesTerm(term: string, e: EmployeeCard) {
    Matches(e, term)
  }

  /** The list the effect computes: everything for an empty term, else the matches in order. */
  function Filtered(employees: seq<EmployeeCard>, term: string): (r: seq<EmployeeCard>)
    ensures term == "" ==> r == employees
    ensures forall e :: e in r <==> e in employees && (term == "" || Matches(e, term))
  {
    if term == "" then employees else Filter(employees, (e: EmployeeCard) => MatchesTerm(term, e))
  }

  /** `a` is `b` with some elements left out, the rest in order. */
  ghost predicate IsSubsequence<T>(a: seq<T>, b: seq<T>)
    decreases |b|
  {
    if a == [] then true
    else if b == [] then false
    else (a[0] == b[0] && IsSubsequence(a[1..], b[1..])) || IsSubsequence(a, b[1..])
  }

  lemma {:induction false} FilterSubsequence<T(!new)>(s: seq<T>, keep: T -> bool)
    ensures IsSubsequence(Filter(s, keep), s)
  {
    if s != [] {
      FilterSubsequence(s[1..], keep);
      var r := Filter(s, keep);
      if keep(s[0]) {
        assert r[0] == s[0] && r[1..] == Filter(s[1..], keep);
      } else {
        assert r == Filter(s[1..], keep);
      }
    }
  }

  /** A stricter filter keeps a subsequence of what a looser one keeps. */
  lemma {:induction false} FilterStricter<T(!new)>(s: seq<T>, strict: T -> bool, loose: T -> bool)
    requires forall x :: x in s && strict(x) ==> loose(x)
    ensures IsSubsequence(Filter(s, strict), Filter(s, loose))
  {
    if s != [] {
      FilterStricter(s[1..], strict, loose);
      var a, b := Filter(s, strict), Filter(s, loose);
      var a', b' := Filter(s[1..], strict), Filter(s[1..], loose);
      if strict(s[0]) {
        assert a[0] == s[0] == b[0] && a[1..] == a' && b[1..] == b';
      } else if loose(s[0]) {
        assert a == a' && b[1..] == b';
      } else {
        assert a == a' && b == b';
      }
    } else {
      assert Filter(s, strict) == [];
    }
  }

  /** The shown list keeps the employees' order and adds nothing: it is a subsequence. */
  lemma FilteredIsSubsequence(employees: seq<EmployeeCard>, term: string)
    ensures IsSubsequence(Filtered(employees, term), employees)
  {
    if term == "" {
      SubsequenceOfItself(employees);
    } else {
      FilterSubsequence(employees, (e: EmployeeCard) => MatchesTerm(term, e));
    }
  }

  lemma {:induction false} SubsequenceOfItself<T>(s: seq<T>)
    ensures IsSubsequence(s, s)
  {
    if s != [] {
      SubsequenceOfItself(s[1..]);
    }
  }

  /** Case is ignored: a term and its upper-case form select the same list. */
  lemma CaseInsensitive(employees: seq<EmployeeCard>, term: string)
    ensures Filtered(employees, ToUpper(term)) == Filtered(employees, term)
  {
    LowerOfUpper(term);
    if term != "" {
      assert ToUpper(term) != "";
      FilterSame(employees, (e: EmployeeCard) => MatchesTerm(ToUpper(term), e),
                 (e: EmployeeCard) => MatchesTerm(term, e));
    }
  }

  lemma {:induction false} FilterSame<T(!new)>(s: seq<T>, p: T -> bool, q: T -> bool)
    requires forall x :: x in s ==> p(x) == q(x)
    ensures Filter(s, p) == Filter(s, q)
  {
    if s != [] {
      FilterSame(s[1..], p, q);
    }
  }

  /** Typing more never brings an employee back: the longer term's list is a subsequence of the shorter's. */
  lemma ExtendingNarrows(employees: seq<EmployeeCard>, term: string, more: string)
    ensures IsSubsequence(Filtered(employees, term + more), Filtered(employees, term))
  {
    if term == "" {
      assert term + more == more;
      FilteredIsSubsequence(employees, more);
    } else {
      ToLowerAppend(term, more);
      forall e | e in employees && MatchesTerm(term + more, e) ensures MatchesTerm(term, e) {
        if Contains(ToLower(FullName(e)), ToLower(term + more)) {
          ContainsPrefix(ToLower(FullName(e)), ToLower(term), ToLower(more));
        } else if Contains(ToLower(e.email), ToLower(term + more)) {
          ContainsPrefix(ToLower(e.email), ToLower(term), ToLower(more));
        } else {
          ContainsPrefix(ToLower(e.loginId.value), ToLower(term), ToLower(more));
        }
      }
      FilterStricter(employees, (e: EmployeeCard) => MatchesTerm(term + more, e),
                     (e: EmployeeCard) => MatchesTerm(term, e));
    }
  }

  /** The page's state. */
  class EmployeeListCards {
    var employees: seq<EmployeeCard>
    var filteredEmployees: seq<EmployeeCard>
    var loading: bool
    var error: string
    var searchTerm: string

    constructor ()
      ensures employees == [] && filteredEmployees == [] && loading && error == "" && searchTerm == ""
    {
      employees, filteredEmployees, loading, error, searchTerm := [], [], true, "", "";
    }

    /** `fetchEmployees`: `response` is the list from `/api/employees`, `None` when the request fails. */
    method FetchEmployees(response: Option<seq<EmployeeCard>>)
      modifies this`employees, this`filteredEmployees, this`loading, this`error
      ensures !loading
      ensures response.Some? ==>
        employees == response.value && filteredEmployees == response.value && error == old(error)
      ensures response.None? ==>
        && employees == old(employees) && filteredEmployees == old(filteredEmployees)
        && error == "Failed to load employees"
    {
      if response.Some? {
        employees := response.value;
        filteredEmployees := response.value;
      } else {
        error := "Failed to load employees";
      }
      loading := false;
    }

    /** The effect on `searchTerm` and `employees`: store the filtered list. */
    method ApplySearch()
      modifies this`filteredEmployees
      ensures filteredEmployees == Filtered(employees, searchTerm)
      ensures IsSubsequence(filteredEmployees, employees)
      ensures forall e :: e in filteredEmployees <==> e in employees && (searchTerm == "" || Matches(e, searchTerm))
    {
      FilteredIsSubsequence(employees, searchTerm);
      var term := searchTerm;
      if term != "" {
        filteredEmployees := Filter(employees, (e: EmployeeCard) => MatchesTerm(term, e));
      } else {
        filteredEmployees := employees;
      }
    }

    /** Typing into the search box: the term changes and the effect runs. */
    method Search(term: string)
      modifies this`searchTerm, this`filteredEmployees
      ensures searchTerm == term && filteredEmployees == Filtered(employees, term)
    {
      searchTerm := term;
      ApplySearch();
    }
  }
}
