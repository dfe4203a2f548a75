/**
 * The certificate verification page: the typed or linked certificate id is
 * normalised into a lookup key, looked up, and the page then shows an error,
 * the verified certificate, or "not found".
 */
module VerifyCertificate {
  import opened Wrappers
  import opened Backend
  import opened JsStrings
  import SearchParams

  /** The columns the lookup selects. */
  datatype Certificate = Certificate(
    certificateId: string,
    studentName: string,
    courseTitle: string,
    issuedAt: string)

  const ErrorMessage := "An error occurred while verifying the certificate."

  /** What the page shows below the search form. */
  datatype Display = Nothing | ErrorCard(message: string) | Verified(cert: Certificate) | NotFound

  /** `id || certificateId`: a non-empty explicit id wins over the typed field. */
  function SearchId(id: Option<string>, field: string): (r: string)
    ensures id.Some? && id.value != [] ==> r == id.value
    ensures id.None? || id.value == [] ==> r == field
  {
    if id.Some? && id.value != [] then id.value else field
  }

  /**
   * `!searchId.trim()`: the input is empty once trimmed, stated as "every character
   * is white space"; `BlankIffWhiteSpace` proves the two forms agree.
   */
  predicate IsBlank(searchId: string) {
    AllWhiteSpace(searchId)
  }

  /** `searchId.trim().toUpperCase()`: the trimmed input, up to case, with no lower-case letter. */
  function LookupKey(searchId: string): (key: string)
    ensures IsTrimmed(key)
    ensures SameIgnoringCase(key, Trim(searchId))
    ensures forall i :: 0 <= i < |key| ==> !IsAsciiLower(key[i])
  {
    var t := Trim(searchId);
    var key := ToUpperCase(t);
    UpperCaseKeepsTrimmed(t);
    key
  }

  /** Blank input is exactly white space, and exactly the input whose key would be empty. */
  lemma BlankIffWhiteSpace(searchId: string)
    ensures IsBlank(searchId) <==> Trim(searchId) == []
    ensures IsBlank(searchId) <==> LookupKey(searchId) == []
  {
    TrimEmptyIffBlank(searchId);
  }

  /** Inputs that differ only in surrounding white space or letter case give the same key. */
  lemma KeyIgnoresPaddingAndCase(before: string, s: string, after: string, t: string)
    requires AllWhiteSpace(before) && AllWhiteSpace(after)
    requires SameIgnoringCase(s, t)
    ensures LookupKey(before + s + after) == LookupKey(t)
  {
    TrimIgnoresPadding(before, s, after);
    TrimUpperCaseCommute(s);
    TrimUpperCaseCommute(t);
    UpperCaseDecidedByFold(s, t);
  }

  /** Normalising an already normalised key leaves it unchanged. */
  lemma KeyIdempotent(searchId: string)
    ensures LookupKey(LookupKey(searchId)) == LookupKey(searchId)
  {
    var t := Trim(searchId);
    TrimUpperCaseCommute(t);
    TrimIdempotent(searchId);
    UpperCaseIdempotent(t);
  }

  /** `!!error`: a set, non-empty message. */
  predicate HasError(error: Option<string>) {
    error.Some? && error.value != []
  }

  /** The render: nothing until a search has finished, then error before found before not found. */
  function Render(searched: bool, isLoading: bool, error: Option<string>,
                  certificate: Option<Certificate>): (d: Display)
    ensures d.Nothing? <==> !searched || isLoading
    ensures d.ErrorCard? <==> searched && !isLoading && HasError(error)
    ensures d.Verified? <==> searched && !isLoading && !HasError(error) && certificate.Some?
    ensures d.NotFound? <==> searched && !isLoading && !HasError(error) && certificate.None?
    ensures d.ErrorCard? ==> d.message == error.value
    ensures d.Verified? ==> d.cert == certificate.value
  {
    if !searched || isLoading then Nothing
    else if HasError(error) then ErrorCard(error.value)
    else if certificate.Some? then Verified(certificate.value)
    else NotFound
  }

  /**
   * The four-outcome state machine, read off the backend's answer alone: a thrown
   * call or an error answer is an error, a row is verified, no row is not found.
   */
  function Outcome(call: Call<Certificate>): (d: Display)
    ensures d != Nothing
    ensures d.ErrorCard? <==> call.Rejected? || call.reply.failed
    ensures d.Verified? <==> call.Resolved? && !call.reply.failed && call.reply.data.Some?
    ensures d.Verified? ==> d.cert == call.reply.data.value
  {
    match call
    case Rejected => ErrorCard(ErrorMessage)
    case Resolved(Reply(data, failed)) =>
      if failed then ErrorCard(ErrorMessage)
      else if data.Some? then Verified(data.value)
      else NotFound
  }

  /** What the `try` / `catch` leaves in `error` once a search has finished. */
  function ErrorAfter(call: Call<Certificate>): (e: Option<string>)
    ensures e.Some? <==> call.Rejected? || call.reply.failed
    ensures e.Some? ==> e.value == ErrorMessage
  {
    if call.Rejected? || call.reply.failed then Some(ErrorMessage) else None
  }

  /** What the `try` / `catch` leaves in `certificate`: the row of a successful answer, else null. */
  function CertificateAfter(call: Call<Certificate>): (c: Option<Certificate>)
    ensures call.Resolved? && !call.reply.failed ==> c == call.reply.data
    ensures call.Rejected? || call.reply.failed ==> c.None?
  {
    if call.Rejected? || call.reply.failed then None else call.reply.data
  }

  /** Once a search has finished, the page shows exactly the outcome of the backend's answer. */
  lemma ShownAfterSearch(call: Call<Certificate>)
    ensures Render(true, false, ErrorAfter(call), CertificateAfter(call)) == Outcome(call)
  {
  }

  /** With one backend, inputs that differ only in padding or case end in the same outcome. */
  lemma OutcomeIgnoresPaddingAndCase(backend: string -> Call<Certificate>,
                                     before: string, s: string, after: string, t: string)
    requires AllWhiteSpace(before) && AllWhiteSpace(after)
    requires SameIgnoringCase(s, t)
    ensures Outcome(backend(LookupKey(before + s + after))) == Outcome(backend(LookupKey(t)))
  {
    KeyIgnoresPaddingAndCase(before, s, after, t);
  }

  /** The page's state: one field per `useState` of the source. */
  class VerifyPage {
    var certificateId: string
    var certificate: Option<Certificate>
    var isLoading: bool
    var searched: bool
    var error: Option<string>

    /** Between handlers: nothing is loading, an error excludes a certificate, and nothing is set before a search. */
    ghost predicate Valid()
      reads this
    {
      && !isLoading
      && (error.Some? ==> error == Some(ErrorMessage) && certificate.None?)
      && (!searched ==> error.None? && certificate.None?)
    }

    /** What the page currently shows below the form. */
    function Shown(): Display
      reads this
    {
      Render(searched, isLoading, error, certificate)
    }

    /** The page mounts with the field seeded from the `id` query parameter, or empty. */
    constructor (query: string)
      ensures Valid()
      ensures certificateId == SearchParams.Get(query, "id").GetOr([])
      ensures certificate.None? && !searched && error.None?
      ensures Shown() == Nothing
    {
      certificateId := SearchParams.Get(query, "id").GetOr([]);
      certificate := None;
      isLoading := false;
      searched := false;
      error := None;
    }

    /** Typing into the field. */
    method Edit(text: string)
      requires Valid()
      modifies this`certificateId
      ensures Valid()
      ensures certificateId == text
    {
      certificateId := text;
    }

    /**
     * `verifyCertificate(id)`. `backend` answers the certificate query for a key;
     * `key` is the key sent, or None when no lookup is made.
     */
    method Verify(id: Option<string>, backend: string -> Call<Certificate>) returns (key: Option<string>)
      requires Valid()
      modifies this
      ensures Valid()
      ensures certificateId == old(certificateId)
      ensures IsBlank(SearchId(id, old(certificateId))) ==>
        && key.None?
        && searched == old(searched) && error == old(error) && certificate == old(certificate)
      ensures !IsBlank(SearchId(id, old(certificateId))) ==>
        && key == Some(LookupKey(SearchId(id, old(certificateId))))
        && searched
        && error == ErrorAfter(backend(key.value))
        && certificate == CertificateAfter(backend(key.value))
        && Shown() == Outcome(backend(key.value))
    {
      var searchId := SearchId(id, certificateId);
      if IsBlank(searchId) {
        return None;
      }

      isLoading := true;
      searched := true;
      error := None;

      key := Some(LookupKey(searchId));
      Settle(backend(key.value));
    }

    /** The `try` / `catch` / `finally` of a search that has been started: record the answer. */
    method Settle(call: Call<Certificate>)
      requires searched && isLoading && error.None?
      modifies this`certificate, this`isLoading, this`error
      ensures Valid()
      ensures error == ErrorAfter(call) && certificate == CertificateAfter(call)
      ensures Shown() == Outcome(call)
    {
      match call {
        case Rejected =>
          error := Some(ErrorMessage);
          certificate := None;
        case Resolved(reply) =>
          if reply.failed {
            error := Some(ErrorMessage);
            certificate := None;
          } else {
            certificate := reply.data;
          }
      }
      isLoading := false;
      ShownAfterSearch(call);
    }

    /** `handleSubmit`: a search with the typed field. */
    method Submit(backend: string -> Call<Certificate>) returns (key: Option<string>)
      requires Valid()
      modifies this
      ensures Valid()
      ensures certificateId == old(certificateId)
      ensures key.None? <==> IsBlank(old(certificateId))
      ensures key.Some? ==> key.value == LookupKey(old(certificateId)) && Shown() == Outcome(backend(key.value))
      ensures key.None? ==> Shown() == old(Shown())
    {
      key := Verify(None, backend);
    }

    /** The effect on the `id` query parameter: a present, non-empty id seeds the field and is searched. */
    method OnSearchParams(query: string, backend: string -> Call<Certificate>) returns (key: Option<string>)
      requires Valid()
      modifies this
      ensures Valid()
      ensures var param := SearchParams.Get(query, "id");
        if param.Some? && param.value != [] then
          && certificateId == param.value
          && (key.None? <==> IsBlank(param.value))
          && (key.None? ==> searched == old(searched) && error == old(error)
                            && certificate == old(certificate) && Shown() == old(Shown()))
          && (key.Some? ==> key.value == LookupKey(param.value) && Shown() == Outcome(backend(key.value)))
        else
          && key.None?
          && certificateId == old(certificateId) && Shown() == old(Shown())
    {
      var param := SearchParams.Get(query, "id");
      if param.Some? && param.value != [] {
        certificateId := param.value;
        key := Verify(param, backend);
      } else {
        key := None;
      }
    }
  }
}
