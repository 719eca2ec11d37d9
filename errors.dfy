// The error taxonomy of the scraper: one base class and three subclasses,
// each fixing its message text and its `name`, and the `instanceof` test
// the controllers dispatch on. Besides these, a catch clause can receive any
// other Error (from fetch, JSON.parse, the model client) or a value that is
// not an Error at all; `Thrown` covers all of them.

module Errors {
  import opened Wrappers
  import opened JsBuiltins

  /** An instance of one of the four error classes, with its constructor
      arguments. */
  datatype DomainError =
    | ScraperError(text: string)
    | InvalidUrlError(url: string)
    | ScrapingBlockedError(url: string, statusCode: int)
    | ScrapingTimeoutError(url: string, timeoutMs: int)

  /** The four classes themselves. */
  datatype ErrorClass =
    | ScraperErrorClass
    | InvalidUrlErrorClass
    | ScrapingBlockedErrorClass
    | ScrapingTimeoutErrorClass

  function ClassOf(e: DomainError): ErrorClass {
    match e
    case ScraperError(_) => ScraperErrorClass
    case InvalidUrlError(_) => InvalidUrlErrorClass
    case ScrapingBlockedError(_, _) => ScrapingBlockedErrorClass
    case ScrapingTimeoutError(_, _) => ScrapingTimeoutErrorClass
  }

  /** The `extends` clause of each class (the base class extends Error,
      which is outside this taxonomy). */
  function Parent(c: ErrorClass): Option<ErrorClass> {
    if c == ScraperErrorClass then None else Some(ScraperErrorClass)
  }

  function Depth(c: ErrorClass): nat {
    if c == ScraperErrorClass then 0 else 1
  }

  /** `a` is `c` or inherits from it. */
  predicate IsSubclass(a: ErrorClass, c: ErrorClass)
    decreases Depth(a)
  {
    a == c || (Parent(a).Some? && IsSubclass(Parent(a).value, c))
  }

  /** `e instanceof C`: the prototype chain of `e` reaches `C`. */
  predicate InstanceOf(e: DomainError, c: ErrorClass) {
    IsSubclass(ClassOf(e), c)
  }

  /** Every error of the taxonomy passes `instanceof ScraperError`, and
      passes a subclass test exactly when it was built by that subclass. */
  lemma InstanceOfHierarchy(e: DomainError, c: ErrorClass)
    ensures InstanceOf(e, ScraperErrorClass)
    ensures c != ScraperErrorClass ==> (InstanceOf(e, c) <==> ClassOf(e) == c)
  {
  }

  /** The `name` each constructor assigns. */
  function Name(e: DomainError): (r: string)
    ensures ClassOf(e) == ScraperErrorClass ==> r == "ScraperError"
    ensures ClassOf(e) == InvalidUrlErrorClass ==> r == "InvalidUrlError"
    ensures ClassOf(e) == ScrapingBlockedErrorClass ==> r == "ScrapingBlockedError"
    ensures ClassOf(e) == ScrapingTimeoutErrorClass ==> r == "ScrapingTimeoutError"
  {
    match e
    case ScraperError(_) => "ScraperError"
    case InvalidUrlError(_) => "InvalidUrlError"
    case ScrapingBlockedError(_, _) => "ScrapingBlockedError"
    case ScrapingTimeoutError(_, _) => "ScrapingTimeoutError"
  }

  const InvalidUrlPrefix := "Invalid URL format: "

  /** The `message` each constructor passes to `super`. */
  function Message(e: DomainError): string {
    match e
    case ScraperError(text) => text
    case InvalidUrlError(url) => InvalidUrlPrefix + url
    case ScrapingBlockedError(url, code) => "Blocked by " + url + " with status " + IntToString(code)
    case ScrapingTimeoutError(url, ms) => "Request to " + url + " timed out after " + IntToString(ms) + "ms"
  }

  /** The `statusCode` field, which only ScrapingBlockedError declares. */
  function StatusCode(e: DomainError): (r: Option<int>)
    ensures r.Some? <==> e.ScrapingBlockedError?
  {
    if e.ScrapingBlockedError? then Some(e.statusCode) else None
  }

  /** The message of an invalid-URL error carries the offending string
      verbatim after its fixed prefix. */
  lemma InvalidUrlMessage(url: string)
    ensures StartsWith(Message(InvalidUrlError(url)), InvalidUrlPrefix)
    ensures Message(InvalidUrlError(url))[|InvalidUrlPrefix|..] == url
  {
  }

  /** The message of a blocked error ends in the origin's status, which
      parseInt reads back from the text after the fixed words. */
  lemma BlockedMessageCarriesStatus(url: string, code: int)
    ensures var p := "Blocked by " + url + " with status ";
      var m := Message(ScrapingBlockedError(url, code));
      StartsWith(m, p) && ParseInt(m[|p|..]) == Some(code)
  {
    var p := "Blocked by " + url + " with status ";
    var m := Message(ScrapingBlockedError(url, code));
    assert m == p + IntToString(code);
    assert m[|p|..] == IntToString(code) + [];
    ParseIntRoundTrip(code, []);
  }

  /** The message of a timeout error carries the number of milliseconds. */
  lemma TimeoutMessageCarriesDelay(url: string, ms: int)
    ensures var p := "Request to " + url + " timed out after ";
      var m := Message(ScrapingTimeoutError(url, ms));
      StartsWith(m, p) && ParseInt(m[|p|..]) == Some(ms)
  {
    var p := "Request to " + url + " timed out after ";
    var m := Message(ScrapingTimeoutError(url, ms));
    var digits := IntToString(ms);
    assert m == p + (digits + "ms");
    assert m[|p|..] == digits + "ms";
    assert EndsNumber(ms, "ms");
    ParseIntRoundTrip(ms, "ms");
  }

  /** A rejection from code outside the taxonomy: an Error instance with
      its message, or a thrown value that is not an Error. */
  datatype Fault = ErrorObject(message: string) | NonErrorValue

  /** What a catch clause of the core can receive. */
  datatype Thrown = Domain(error: DomainError) | Foreign(fault: Fault)

  /** `e instanceof C` for whatever a catch clause received. */
  predicate Raised(e: Thrown, c: ErrorClass) {
    e.Domain? && InstanceOf(e.error, c)
  }

  /** A caught value passes `instanceof ScraperError` exactly when it comes
      from the taxonomy, and a subclass test exactly when that subclass
      built it; nothing from outside passes any of them. */
  lemma RaisedHierarchy(e: Thrown)
    ensures Raised(e, ScraperErrorClass) <==> e.Domain?
    ensures Raised(e, InvalidUrlErrorClass) <==> e.Domain? && e.error.InvalidUrlError?
    ensures Raised(e, ScrapingBlockedErrorClass) <==> e.Domain? && e.error.ScrapingBlockedError?
    ensures Raised(e, ScrapingTimeoutErrorClass) <==> e.Domain? && e.error.ScrapingTimeoutError?
  {
    if e.Domain? {
      InstanceOfHierarchy(e.error, InvalidUrlErrorClass);
      InstanceOfHierarchy(e.error, ScrapingBlockedErrorClass);
      InstanceOfHierarchy(e.error, ScrapingTimeoutErrorClass);
    }
  }
}
