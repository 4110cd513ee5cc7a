/**
 * The login-id and password generators: a login id is the company code,
 * the upper-cased initials, the year and a serial padded to four digits;
 * the serial follows the last id issued with the same prefix. A password
 * is twelve characters drawn from a fixed alphabet.
 *
 * The year (`new Date().getFullYear()`) and the random draws
 * (`Math.random()`) are parameters. Login ids compare by code point.
 */
module LoginIds {

  import opened Common
  import opened Tables
  import opened Sorting

  // ---- Decimal text ----

  predicate IsDigit(c: char) {
    '0' <= c <= '9'
  }

  predicate AllDigits(s: string) {
    forall i :: 0 <= i < |s| ==> IsDigit(s[i])
  }

  function DigitChar(d: nat): (c: char)
    requires d < 10
    ensures IsDigit(c) && c as int - '0' as int == d
  {
    ('0' as int + d) as char
  }

  /** `toString` of a natural number: its decimal digits, without leading zeros. */
  function NatText(n: nat): (r: string)
    ensures 1 <= |r| && AllDigits(r)
    ensures |r| > 1 ==> r[0] != '0'
    decreases n
  {
    if n < 10 then [DigitChar(n)] else NatText(n / 10) + [DigitChar(n % 10)]
  }

  /** `toString` of an integer. */
  function IntText(n: int): string {
    if n < 0 then "-" + NatText(-n) else NatText(n)
  }

  /** The number a string of decimal digits denotes. */
  function DigitsValue(s: string): nat
    requires AllDigits(s)
  {
    if s == [] then 0 else DigitsValue(s[..|s| - 1]) * 10 + (s[|s| - 1] as int - '0' as int)
  }

  /** The decimal text of `n` denotes `n`. */
  lemma {:induction false} NatTextValue(n: nat)
    ensures DigitsValue(NatText(n)) == n
    decreases n
  {
    if n >= 10 {
      NatTextValue(n / 10);
      var t := NatText(n);
      assert t[..|t| - 1] == NatText(n / 10);
    }
  }

  /** A number below 10000 has at most four digits. */
  lemma NatTextShort(n: nat)
    requires n < 10000
    ensures |NatText(n)| <= 4
  {
    if n >= 10 {
      var a := n / 10;
      assert |NatText(n)| == |NatText(a)| + 1;
      if a >= 10 {
        var b := a / 10;
        assert |NatText(a)| == |NatText(b)| + 1;
        if b >= 10 {
          assert |NatText(b)| == |NatText(b / 10)| + 1 && b / 10 < 10;
        }
      }
    }
  }

  function Repeat(c: char, k: nat): (r: string)
    ensures |r| == k && forall i :: 0 <= i < k ==> r[i] == c
  {
    seq(k, _ => c)
  }

  /** Leading zeros do not change the value of a digit string. */
  lemma {:induction false} LeadingZeros(k: nat, s: string)
    requires AllDigits(s)
    ensures AllDigits(Repeat('0', k) + s)
    ensures DigitsValue(Repeat('0', k) + s) == DigitsValue(s)
    decreases |s|
  {
    var z := Repeat('0', k);
    if s == [] {
      assert z + s == z;
      ZerosValue(k);
    } else {
      var t := s[..|s| - 1];
      LeadingZeros(k, t);
      assert (z + s)[..|z + s| - 1] == z + t;
    }
  }

  lemma {:induction false} ZerosValue(k: nat)
    ensures DigitsValue(Repeat('0', k)) == 0
  {
    if k > 0 {
      ZerosValue(k - 1);
      assert Repeat('0', k)[..k - 1] == Repeat('0', k - 1);
    }
  }

  /** `s.padStart(width, fill)`. */
  function PadStart(s: string, width: nat, fill: char): (r: string)
    ensures |r| == if |s| >= width then |s| else width
  {
    if |s| >= width then s else Repeat(fill, width - |s|) + s
  }

  /** `serial.toString().padStart(4, '0')`. */
  function Pad4(serial: int): string {
    PadStart(IntText(serial), 4, '0')
  }

  /** For a natural number the padded text is digits, and denotes the number. */
  lemma Pad4Value(n: nat)
    ensures AllDigits(Pad4(n)) && |Pad4(n)| >= 4
    ensures DigitsValue(Pad4(n)) == n
  {
    NatTextValue(n);
    var t := NatText(n);
    if |t| < 4 {
      LeadingZeros(4 - |t|, t);
    }
  }

  /** `parseInt(s)` in base 10 (`None` is `NaN`): white space, a sign, then the leading digits. */
  function ParseInt(s: string): (r: Option<int>)
    ensures s != [] && AllDigits(s) ==> r == Some(DigitsValue(s))
  {
    var t := SkipSpace(s);
    var u := if t != [] && (t[0] == '-' || t[0] == '+') then t[1..] else t;
    var digits := LeadingDigits(u);
    var v: int := if digits == [] then 0 else DigitsValue(digits);
    if digits == [] then None
    else if t[0] == '-' then Some(-v)
    else Some(v)
  }

  function SkipSpace(s: string): (r: string)
    ensures s != [] && !IsWhitespace(s[0]) ==> r == s
  {
    if s != [] && IsWhitespace(s[0]) then SkipSpace(s[1..]) else s
  }

  /** The longest run of digits at the start of `s`. */
  function LeadingDigits(s: string): (r: string)
    ensures AllDigits(r) && |r| <= |s| && r == s[..|r|]
    ensures AllDigits(s) ==> r == s
  {
    if s != [] && IsDigit(s[0]) then [s[0]] + LeadingDigits(s[1..]) else []
  }

  /** The padding round trip: below 10000 the text has four digits and parses back. */
  lemma Pad4RoundTrip(n: nat)
    requires n < 10000
    ensures |Pad4(n)| == 4 && AllDigits(Pad4(n))
    ensures ParseInt(Pad4(n)) == Some(n)
  {
    NatTextShort(n);
    Pad4Value(n);
  }

  // ---- Login ids ----

  /** `SELECT code FROM company LIMIT 1`. */
  function CompanyCode(company: map<Id, Company>): (r: Option<string>)
    ensures r.None? <==> company == map[]
    ensures r.Some? ==> exists k :: k in company && company[k].code == r.value
  {
    if company == map[] then None
    else
      var rows := TableRows(company);
      var k :| k in company;
      assert (k, company[k]) in rows;
      Some(rows[0].1.code)
  }

  /** `name.charAt(0).toUpperCase()`: empty for an empty name. */
  function Initial(name: string): (r: string)
    ensures name == [] ==> r == []
    ensures name != [] ==> r == [UpperChar(name[0])]
  {
    if name == [] then [] else ToUpper([name[0]])
  }

  function LoginPrefix(code: string, firstName: string, lastName: string, year: int): string {
    code + Initial(firstName) + Initial(lastName) + IntText(year)
  }

  /** Some user has this login id. */
  predicate LoginTaken(users: map<Id, User>, loginId: string) {
    exists k :: k in users && users[k].loginId == Some(loginId)
  }

  function MatchIn(rows: seq<(Id, User)>, prefix: string): (r: seq<string>)
    ensures forall x :: x in r <==> StartsWith(x, prefix) && exists p :: p in rows && p.1.loginId == Some(x)
  {
    if rows == [] then []
    else
      var rest := MatchIn(rows[1..], prefix);
      var id := rows[0].1.loginId;
      assert forall p :: p in rows <==> p == rows[0] || p in rows[1..];
      if id.Some? && StartsWith(id.value, prefix) then [id.value] + rest else rest
  }

  /** The login ids `LIKE prefix%`. */
  function MatchingIds(users: map<Id, User>, prefix: string): (r: seq<string>)
    ensures forall x :: x in r <==> StartsWith(x, prefix) && LoginTaken(users, x)
  {
    var rows := TableRows(users);
    var r := MatchIn(rows, prefix);
    assert forall x :: LoginTaken(users, x) ==> exists p :: p in rows && p.1.loginId == Some(x) by {
      forall x | LoginTaken(users, x) ensures exists p :: p in rows && p.1.loginId == Some(x) {
        var k :| k in users && users[k].loginId == Some(x);
        assert (k, users[k]) in rows;
      }
    }
    r
  }

  /** `ORDER BY login_id DESC LIMIT 1`. */
  function Greatest(s: seq<string>): (r: Option<string>)
    ensures r.None? <==> s == []
    ensures r.Some? ==> r.value in s && forall x :: x in s ==> StrLe(x, r.value)
  {
    if s == [] then None
    else
      var rest := Greatest(s[1..]);
      assert forall x :: x in s <==> x == s[0] || x in s[1..];
      StrLeTotal(s[0], s[0]);
      if rest.None? then Some(s[0])
      else if StrLe(s[0], rest.value) then rest
      else
        StrLeTotal(s[0], rest.value);
        forall x | x in s[1..] ensures StrLe(x, s[0]) {
          StrLeTrans(x, rest.value, s[0]);
        }
        Some(s[0])
  }

  /** `lastLoginId.slice(-4)`. */
  function LastFour(s: string): (r: string)
    ensures |r| == if |s| <= 4 then |s| else 4
    ensures s == s[..|s| - |r|] + r
  {
    if |s| <= 4 then s else s[|s| - 4..]
  }

  /** The serial as written: 1, or `parseInt` of the last four characters plus 1; `None` is `NaN`. */
  function NextSerial(last: Option<string>): Option<int> {
    match last
    case None => Some(1)
    case Some(id) =>
      match ParseInt(LastFour(id))
      case None => None
      case Some(v) => Some(v + 1)
  }

  /** The serial text; `NaN` pads to `"0NaN"`. */
  function SerialText(serial: Option<int>): string {
    match serial
    case None => PadStart("NaN", 4, '0')
    case Some(n) => Pad4(n)
  }

  /**
   * `generateLoginId` as written: no id when the company table is empty
   * ("Company not found"); otherwise the prefix and the serial following
   * the greatest login id with that prefix.
   */
  function GenerateLoginId(company: map<Id, Company>, users: map<Id, User>, firstName: string, lastName: string,
                           year: int): (r: Option<string>)
    ensures r.None? <==> company == map[]
    ensures r.Some? ==> StartsWith(r.value, LoginPrefix(CompanyCode(company).value, firstName, lastName, year))
  {
    match CompanyCode(company)
    case None => None
    case Some(code) =>
      var prefix := LoginPrefix(code, firstName, lastName, year);
      Some(prefix + SerialText(NextSerial(Greatest(MatchingIds(users, prefix)))))
  }

  /** The first id with a prefix has serial `0001`. */
  lemma FirstSerial(company: map<Id, Company>, users: map<Id, User>, firstName: string, lastName: string, year: int)
    requires company != map[]
    requires forall k :: k in users && users[k].loginId.Some? ==>
      !StartsWith(users[k].loginId.value, LoginPrefix(CompanyCode(company).value, firstName, lastName, year))
    ensures GenerateLoginId(company, users, firstName, lastName, year) ==
      Some(LoginPrefix(CompanyCode(company).value, firstName, lastName, year) + "0001")
  {
    var prefix := LoginPrefix(CompanyCode(company).value, firstName, lastName, year);
    var m := MatchingIds(users, prefix);
    assert forall x :: x !in m;
    assert Greatest(m).None?;
    PadOne();
  }

  lemma PadOne()
    ensures Pad4(1) == "0001"
  {
    assert NatText(1) == "1";
    assert Repeat('0', 3) == "000";
  }

  /**
   * Otherwise the serial is the value of the last four characters of the
   * greatest id with the prefix, plus one, and below 9999 it keeps four
   * digits.
   */
  lemma SerialAfterGreatest(company: map<Id, Company>, users: map<Id, User>, firstName: string, lastName: string,
                            year: int, last: string)
    requires company != map[]
    requires StartsWith(last, LoginPrefix(CompanyCode(company).value, firstName, lastName, year))
    requires LoginTaken(users, last)
    requires forall x ::
      (LoginTaken(users, x) && StartsWith(x, LoginPrefix(CompanyCode(company).value, firstName, lastName, year))) ==>
        StrLe(x, last)
    requires |last| >= 4 && AllDigits(LastFour(last))
    ensures var prefix := LoginPrefix(CompanyCode(company).value, firstName, lastName, year);
      var v := DigitsValue(LastFour(last));
      && GenerateLoginId(company, users, firstName, lastName, year) == Some(prefix + Pad4(v + 1))
      && (v < 9999 ==> |Pad4(v + 1)| == 4)
  {
    var prefix := LoginPrefix(CompanyCode(company).value, firstName, lastName, year);
    var g := Greatest(MatchingIds(users, prefix));
    StrLeAntisymmetric(g.value, last);
    var v := DigitsValue(LastFour(last));
    if v < 9999 {
      Pad4RoundTrip(v + 1);
    }
  }

  lemma {:induction false} StrLeAntisymmetric(a: string, b: string)
    requires StrLe(a, b) && StrLe(b, a)
    ensures a == b
  {
    if a != [] && b != [] {
      StrLeAntisymmetric(a[1..], b[1..]);
      assert a == [a[0]] + a[1..] && b == [b[0]] + b[1..];
    }
  }

  // ---- Serial rollover ----

  /**
   * Past serial 9999 the as-written rule repeats itself: once ids ending in
   * `9999` and `10000` exist, the greatest id with the prefix is still the
   * one ending in `9999` (`'9' > '1'`), so the generator hands out the id
   * ending in `10000` again.
   */
  lemma RolloverRepeatsId(company: map<Id, Company>, users: map<Id, User>, firstName: string, lastName: string,
                          year: int)
    requires company != map[]
    requires var prefix := LoginPrefix(CompanyCode(company).value, firstName, lastName, year);
      && LoginTaken(users, prefix + "9999") && LoginTaken(users, prefix + "10000")
      && forall x :: LoginTaken(users, x) && StartsWith(x, prefix) ==> StrLe(x, prefix + "9999")
    ensures var prefix := LoginPrefix(CompanyCode(company).value, firstName, lastName, year);
      && GenerateLoginId(company, users, firstName, lastName, year) == Some(prefix + "10000")
      && LoginTaken(users, prefix + "10000")
  {
    var prefix := LoginPrefix(CompanyCode(company).value, firstName, lastName, year);
    var before := prefix + "9999";
    var m := MatchingIds(users, prefix);
    assert before[..|prefix|] == prefix;
    GreatestIs(m, before);
    SerialAfterNines(prefix);
  }

  lemma GreatestIs(s: seq<string>, top: string)
    requires top in s && forall x :: x in s ==> StrLe(x, top)
    ensures Greatest(s) == Some(top)
  {
    StrLeAntisymmetric(Greatest(s).value, top);
  }

  lemma {:induction false} StrLeCommonPrefix(a: string, b: string, n: nat)
    requires n <= |a| && n <= |b| && a[..n] == b[..n]
    ensures StrLe(a, b) == StrLe(a[n..], b[n..])
    decreases n
  {
    if n > 0 {
      assert a[0] == a[..n][0] && b[0] == b[..n][0];
      assert a[1..][..n - 1] == a[1..n] == b[1..n] == b[1..][..n - 1];
      StrLeCommonPrefix(a[1..], b[1..], n - 1);
      assert a[1..][n - 1..] == a[n..] && b[1..][n - 1..] == b[n..];
    }
  }

  lemma SerialAfterNines(prefix: string)
    ensures SerialText(NextSerial(Some(prefix + "9999"))) == "10000"
  {
    var id := prefix + "9999";
    assert LastFour(id) == "9999" by {
      assert id[|id| - 4..] == "9999";
    }
    NinesValue();
    TenThousandText();
  }

  lemma NinesValue()
    ensures ParseInt("9999") == Some(9999)
  {
    var nines := "9999";
    assert nines[..3] == "999" && nines[..3][..2] == "99" && nines[..3][..2][..1] == "9" && nines[..3][..2][..1][..0] == "";
    assert DigitsValue("9") == 9 && DigitsValue("99") == 99 && DigitsValue("999") == 999;
    assert DigitsValue(nines) == 9999;
  }

  lemma TenThousandText()
    ensures Pad4(10000) == "10000"
  {
    assert NatText(1) == "1" && NatText(10) == "10" && NatText(100) == "100" && NatText(1000) == "1000";
    assert NatText(10000) == "10000";
  }

  /** The serial after `prefix`: the value of the digits that follow it, if only digits do. */
  function SerialOf(loginId: string, prefix: string): Option<nat> {
    if StartsWith(loginId, prefix) && |loginId| > |prefix| && AllDigits(loginId[|prefix|..]) then
      Some(DigitsValue(loginId[|prefix|..]))
    else None
  }

  /** The largest serial among the ids, 0 when none has one. */
  function MaxSerial(ids: seq<string>, prefix: string): (m: nat)
    ensures forall x :: x in ids && SerialOf(x, prefix).Some? ==> SerialOf(x, prefix).value <= m
    ensures (forall x :: x in ids ==> SerialOf(x, prefix).None?) ==> m == 0
    ensures (exists x :: x in ids && SerialOf(x, prefix).Some?) ==>
      exists x :: x in ids && SerialOf(x, prefix) == Some(m)
  {
    if ids == [] then 0
    else
      var rest := MaxSerial(ids[1..], prefix);
      assert forall x :: x in ids <==> x == ids[0] || x in ids[1..];
      match SerialOf(ids[0], prefix)
      case None => rest
      case Some(v) => if v > rest then v else rest
  }

  /**
   * The evidently intended generator: the serial is one more than the
   * largest serial in use with the prefix, compared as numbers, so the id it
   * returns is not taken by any user.
   */
  function GenerateFreshLoginId(company: map<Id, Company>, users: map<Id, User>, firstName: string,
                                lastName: string, year: int): (r: Option<string>)
    ensures r.None? <==> company == map[]
    ensures r.Some? ==> StartsWith(r.value, LoginPrefix(CompanyCode(company).value, firstName, lastName, year))
    ensures r.Some? ==> !LoginTaken(users, r.value)
  {
    match CompanyCode(company)
    case None => None
    case Some(code) =>
      var prefix := LoginPrefix(code, firstName, lastName, year);
      var ids := MatchingIds(users, prefix);
      var serial := MaxSerial(ids, prefix) + 1;
      var candidate := prefix + Pad4(serial);
      Pad4Value(serial);
      assert candidate[..|prefix|] == prefix && candidate[|prefix|..] == Pad4(serial);
      assert SerialOf(candidate, prefix) == Some(serial);
      Some(candidate)
  }

  /** Like the as-written rule, the first id with a prefix has serial `0001`. */
  lemma FreshFirstSerial(company: map<Id, Company>, users: map<Id, User>, firstName: string, lastName: string,
                         year: int)
    requires company != map[]
    requires forall k :: k in users && users[k].loginId.Some? ==>
      !StartsWith(users[k].loginId.value, LoginPrefix(CompanyCode(company).value, firstName, lastName, year))
    ensures GenerateFreshLoginId(company, users, firstName, lastName, year) ==
      Some(LoginPrefix(CompanyCode(company).value, firstName, lastName, year) + "0001")
  {
    var prefix := LoginPrefix(CompanyCode(company).value, firstName, lastName, year);
    var m := MatchingIds(users, prefix);
    assert forall x :: x !in m;
    assert MaxSerial(m, prefix) == 0;
    PadOne();
  }

  // ---- Passwords ----

  const PasswordLength := 12
  const Charset := "abcdefghijklmnopqrstuvwxyzABCDEFGHIJKLMNOPQRSTUVWXYZ0123456789!@#$%^&*"

  /** `Math.floor(random * charset.length)` for a draw in `[0, 1)`. */
  function Draw(random: real): (k: nat)
    requires 0.0 <= random < 1.0
    ensures k < |Charset|
  {
    (random * |Charset| as real).Floor
  }

  /** `generatePassword`: the `i`-th character is the one the `i`-th draw picks. */
  method GeneratePassword(random: nat -> real) returns (password: string)
    requires forall i :: 0 <= i < PasswordLength ==> 0.0 <= random(i) < 1.0
    ensures |password| == PasswordLength
    ensures forall k :: 0 <= k < |password| ==> password[k] == Charset[Draw(random(k))]
    ensures forall k :: 0 <= k < |password| ==> password[k] in Charset
  {
    password := "";
    for i := 0 to PasswordLength
      invariant |password| == i
      invariant forall k :: 0 <= k < i ==> password[k] == Charset[Draw(random(k))]
    {
      password := password + [Charset[Draw(random(i))]];
    }
  }
}
