/**
 * The "create user" form (app/users/create/page.tsx): its two check-in
 * toggles, and the submit handler that turns a typed phone number into the
 * stored WhatsApp address.
 */
module CreateUserPage {
  import opened Wrappers
  import opened Strings
  import opened Navigation
  import DashboardPage

  const CountryCode := "62"
  const WaSuffix := DashboardPage.WaSuffix

  /** The form's state: the typed number and the two check-in switches. */
  datatype FormData = FormData(number: string, absenPagi: bool, absenSore: bool)

  /** The object handed to the create mutation: a user without server-assigned fields. */
  datatype NewUser = NewUser(number: string, absenPagi: bool, absenSore: bool)

  /** `toggleAbsenPagi` */
  function ToggleAbsenPagi(f: FormData): (r: FormData)
    ensures r.absenPagi == !f.absenPagi
    ensures r.number == f.number && r.absenSore == f.absenSore
  {
    f.(absenPagi := !f.absenPagi)
  }

  /** `toggleAbsenSore` */
  function ToggleAbsenSore(f: FormData): (r: FormData)
    ensures r.absenSore == !f.absenSore
    ensures r.number == f.number && r.absenPagi == f.absenPagi
  {
    f.(absenSore := !f.absenSore)
  }

  /** Toggling twice restores the form, and the two toggles commute. */
  lemma TogglesInvolutive(f: FormData)
    ensures ToggleAbsenPagi(ToggleAbsenPagi(f)) == f
    ensures ToggleAbsenSore(ToggleAbsenSore(f)) == f
    ensures ToggleAbsenPagi(ToggleAbsenSore(f)) == ToggleAbsenSore(ToggleAbsenPagi(f))
  {
  }

  /**
   * The country-code step: a leading `0` becomes `62`, a missing `62` is
   * added; the result always carries the code, at most two characters longer.
   */
  function WithCountryCode(n: string): (r: string)
    ensures StartsWith(r, CountryCode)
    ensures |n| <= |r| <= |n| + 2
  {
    if StartsWith(n, "0") then CountryCode + n[1..]
    else if !StartsWith(n, CountryCode) then CountryCode + n
    else n
  }

  /**
   * The suffix step: `@s.whatsapp.net` is appended unless already present.
   * The result holds the suffix and begins with the number it was given.
   */
  function WithSuffix(n: string): (r: string)
    ensures Contains(r, WaSuffix)
    ensures StartsWith(r, n) && |r| <= |n| + |WaSuffix|
  {
    if !Contains(n, WaSuffix) then
      ContainsAppended(n, WaSuffix);
      n + WaSuffix
    else n
  }

  /** The stored form of a typed number: it always starts with `62` and always holds the suffix. */
  function Normalize(n: string): (r: string)
    ensures StartsWith(r, CountryCode)
    ensures Contains(r, WaSuffix)
  {
    var p := WithCountryCode(n);
    StartsWithTrans(WithSuffix(p), p, CountryCode);
    WithSuffix(p)
  }

  /** Where a successful creation leads. */
  const UsersRoute := "/users"

  /**
   * `handleSubmit`: an empty number submits nothing; otherwise the create
   * mutation gets the normalised number and both switches, and only a
   * successful creation navigates to the user list (a failure leaves the
   * form as it is).
   */
  method HandleSubmit(form: FormData, createSucceeds: bool) returns (payload: Option<NewUser>, nav: Option<Navigation>)
    ensures payload.None? <==> form.number == ""
    ensures payload.Some? ==>
      payload.value == NewUser(Normalize(form.number), form.absenPagi, form.absenSore)
    ensures nav.Some? <==> payload.Some? && createSucceeds
    ensures nav.Some? ==> nav.value == Push(UsersRoute)
  {
    if form.number == "" {
      return None, None;
    }
    var formattedNumber := form.number;
    if StartsWith(formattedNumber, "0") {
      formattedNumber := CountryCode + formattedNumber[1..];
    } else if !StartsWith(formattedNumber, CountryCode) {
      formattedNumber := CountryCode + formattedNumber;
    }
    if !Contains(formattedNumber, WaSuffix) {
      formattedNumber := formattedNumber + WaSuffix;
    }
    payload := Some(NewUser(formattedNumber, form.absenPagi, form.absenSore));
    nav := if createSucceeds then Some(Push(UsersRoute)) else None;
  }

  /** The three cases of the country-code step. */
  lemma CountryCodeCases(n: string)
    ensures StartsWith(n, "0") ==> WithCountryCode(n) == "62" + n[1..]
    ensures StartsWith(n, "62") ==> WithCountryCode(n) == n
    ensures !StartsWith(n, "0") && !StartsWith(n, "62") ==> WithCountryCode(n) == "62" + n
    ensures StartsWith(WithCountryCode(n), "62")
  {
    if StartsWith(n, "0") {
      assert n[0] == n[..1][0] == '0';
      assert ("62" + n[1..])[..2] == "62";
    } else if StartsWith(n, "62") {
      assert n[0] == n[..2][0] == '6';
    } else {
      assert ("62" + n)[..2] == "62";
    }
  }

  /** Normalising a stored number changes nothing: no double `62`, no double suffix. */
  lemma NormalizeIdempotent(n: string)
    ensures Normalize(Normalize(n)) == Normalize(n)
  {
    var m := Normalize(n);
    assert m[..2] == CountryCode;
    assert m[..1] == m[..2][..1] == "6";
    assert WithCountryCode(m) == m;
    assert Contains(m, WaSuffix);
  }

  /** No character of `62` can start the suffix. */
  lemma CountryCodeHidesNoSuffix(x: string)
    ensures Contains(CountryCode + x, WaSuffix) <==> Contains(x, WaSuffix)
  {
    ContainsAfterPrefix(CountryCode, x, WaSuffix);
  }

  /**
   * The country-code step neither creates nor removes the suffix, so the
   * suffix is appended exactly when the typed number lacks it.
   */
  lemma CountryCodeKeepsSuffix(n: string)
    ensures Contains(WithCountryCode(n), WaSuffix) <==> Contains(n, WaSuffix)
    ensures Normalize(n) == if Contains(n, WaSuffix) then WithCountryCode(n) else WithCountryCode(n) + WaSuffix
  {
    if StartsWith(n, "0") {
      CountryCodeHidesNoSuffix(n[1..]);
      assert n == [n[0]] + n[1..];
      ContainsAfterPrefix([n[0]], n[1..], WaSuffix);
    } else if !StartsWith(n, CountryCode) {
      CountryCodeHidesNoSuffix(n);
    }
  }

  /**
   * Round trip with the overview page: for a typed number without the
   * suffix, displaying the stored number gives back the `62`-prefixed number.
   */
  lemma DisplayAfterNormalize(n: string)
    requires !Contains(n, WaSuffix)
    ensures DashboardPage.FormatPhoneNumber(Normalize(n)) == WithCountryCode(n)
    ensures StartsWith(DashboardPage.FormatPhoneNumber(Normalize(n)), "62")
  {
    CountryCodeKeepsSuffix(n);
    CountryCodeCases(n);
    DashboardPage.FormatStripsAppendedSuffix(WithCountryCode(n));
  }

  /** Worked example: a local number gets the country code and the suffix. */
  lemma NormalizeLocalExample(n: string)
    requires n == "08123456789"
    ensures Normalize(n) == "628123456789@s.whatsapp.net"
  {
    LocalCodeExample(n);
    CountryCodeKeepsSuffix(n);
    StoredExample(WithCountryCode(n));
  }

  lemma LocalCodeExample(n: string)
    requires n == "08123456789"
    ensures WithCountryCode(n) == "628123456789"
    ensures !Contains(n, WaSuffix)
  {
    assert n[..1] == "0" && n[1..] == "8123456789";
    CountryCodeCases(n);
    NoSuffixIn(n);
  }

  /** Worked example: an international number gets no second `62`. */
  lemma NormalizeInternationalExample(n: string)
    requires n == "628123456789"
    ensures Normalize(n) == "628123456789@s.whatsapp.net"
  {
    assert n[..2] == "62";
    CountryCodeCases(n);
    NoSuffixIn(n);
    CountryCodeKeepsSuffix(n);
    StoredExample(n);
  }

  lemma StoredExample(p: string)
    requires p == "628123456789"
    ensures p + WaSuffix == "628123456789@s.whatsapp.net"
  {
  }

  /** Worked example: display takes the suffix off again. */
  lemma DisplayExample()
    ensures DashboardPage.FormatPhoneNumber("628123456789@s.whatsapp.net") == "628123456789"
  {
    var p := "628123456789";
    NoSuffixIn(p);
    var stored := p + WaSuffix;
    assert stored == "628123456789@s.whatsapp.net";
    DashboardPage.FormatStripsAppendedSuffix(p);
    assert DashboardPage.FormatPhoneNumber(stored) == p;
  }

  /** A string without `@` cannot hold the suffix. */
  lemma NoSuffixIn(s: string)
    requires forall k :: 0 <= k < |s| ==> s[k] != '@'
    ensures !Contains(s, WaSuffix)
  {
    assert s + [] == s;
    ContainsAfterPrefix(s, [], WaSuffix);
    assert !Contains([], WaSuffix);
  }
}
