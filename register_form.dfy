/** The validation of the registration form (client/src/pages/Register.jsx)
    before it calls `authApi.register(email, name)`. */
module RegisterForm {
  import opened Wrappers
  import opened JsText

  const GoTravel: string := "gotravelcc.com"
  const ClubConcierge: string := "clubconcierge.com"

  /** `ALLOWED_DOMAINS` */
  const AllowedDomains: seq<string> := [GoTravel, ClubConcierge]

  const BlankMessage: string := "Please enter your name and email"
  const DomainMessage: string := "Only @gotravelcc.com and @clubconcierge.com email addresses are allowed."

  /** `emailValue.split('@')[1]?.toLowerCase()`: the lower-cased text
      between the first and the second `@`, undefined without an `@`. */
  function DomainOf(email: string): Option<string> {
    var parts := SplitOn(email, '@');
    if |parts| >= 2 then Some(ToLower(parts[1])) else None
  }

  /** `isValidDomain(email)` */
  predicate IsValidDomain(email: string) {
    var d := DomainOf(email);
    d.Some? && d.value in AllowedDomains
  }

  /** What submitting the form does. */
  datatype Outcome = ShowError(message: string) | Register(email: string, name: string)

  /** `handleSubmit`: the blank check first, then the domain check; the
      untrimmed values are sent. */
  function Submit(name: string, email: string): (r: Outcome)
    ensures r.Register? ==> r.email == email && r.name == name
  {
    if Trim(name) == [] || Trim(email) == [] then ShowError(BlankMessage)
    else if !IsValidDomain(email) then ShowError(DomainMessage)
    else Register(email, name)
  }

  /** The domain of an address with a single `@`. */
  lemma DomainOfSingle(local: string, d: string)
    requires '@' !in local && '@' !in d
    ensures DomainOf(local + "@" + d) == Some(ToLower(d))
  {
    SplitOnFirst(local, d, '@');
    SplitOnWithout(d, '@');
  }

  /** Text after a second `@` is ignored. */
  lemma DomainOfSeveral(local: string, d: string, rest: string)
    requires '@' !in local && '@' !in d
    ensures DomainOf(local + "@" + d + "@" + rest) == Some(ToLower(d))
  {
    assert local + "@" + d + "@" + rest == local + ['@'] + (d + ['@'] + rest);
    SplitOnFirst(local, d + ['@'] + rest, '@');
    SplitOnFirst(d, rest, '@');
  }

  /** An address without `@` has no domain and is rejected. */
  lemma NoAtRejected(email: string)
    requires '@' !in email
    ensures DomainOf(email).None? && !IsValidDomain(email)
  {
    SplitOnWithout(email, '@');
  }

  /** The domain is accepted exactly when, lower-cased, it is one of the
      two allowed ones; its case does not matter. */
  lemma ValidDomainIff(local: string, d: string)
    requires '@' !in local && '@' !in d
    ensures IsValidDomain(local + "@" + d) <==> ToLower(d) == GoTravel || ToLower(d) == ClubConcierge
    ensures IsValidDomain(local + "@" + d) <==> IsValidDomain(local + "@" + ToLower(d))
  {
    DomainOfSingle(local, d);
    assert '@' !in ToLower(d) by {
      forall i | 0 <= i < |d| ensures ToLower(d)[i] != '@' {
      }
    }
    DomainOfSingle(local, ToLower(d));
    assert ToLower(ToLower(d)) == ToLower(d);
  }

  /** The domain check sees the untrimmed address: trailing whitespace
      after the domain makes an allowed address invalid. */
  lemma TrailingSpaceRejected(name: string, local: string, d: string)
    requires '@' !in local && '@' !in d
    requires d != [] && IsSpace(d[|d| - 1])
    ensures !IsValidDomain(local + "@" + d)
    ensures Trim(name) != [] ==> Submit(name, local + "@" + d) == ShowError(DomainMessage)
  {
    DomainOfSingle(local, d);
    LowerKeepsSpace(d[|d| - 1]);
    EndsInSpaceNotAllowed(ToLower(d));
    NonBlank(local, d);
  }

  /** Neither allowed domain ends in whitespace. */
  lemma EndsInSpaceNotAllowed(low: string)
    requires low != [] && IsSpace(low[|low| - 1])
    ensures low !in AllowedDomains
  {
    assert !IsSpace(GoTravel[|GoTravel| - 1]) && !IsSpace(ClubConcierge[|ClubConcierge| - 1]);
  }

  /** An address with an `@` is never blank. */
  lemma NonBlank(local: string, d: string)
    ensures Trim(local + "@" + d) != []
  {
    var s := local + "@" + d;
    var k := |local|;
    assert s[k] == '@' && !IsSpace(s[k]);
    var t := TrimStart(s);
    assert k >= |s| - |t|;
    var r := TrimEnd(t);
    assert t[k - (|s| - |t|)] == '@';
  }

  /** A blank name or address is reported first, whatever the domain. */
  lemma BlankFirst(name: string, email: string)
    requires Trim(name) == [] || Trim(email) == []
    ensures Submit(name, email) == ShowError(BlankMessage)
  {
  }

  /** `register` is called exactly when both fields are non-blank and the
      domain is allowed, and then with the fields as typed. */
  lemma RegisterIff(name: string, email: string)
    ensures Submit(name, email).Register? <==>
      Trim(name) != [] && Trim(email) != [] && IsValidDomain(email)
    ensures Submit(name, email).ShowError? ==>
      Submit(name, email).message in {BlankMessage, DomainMessage}
  {
  }
}
