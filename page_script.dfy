/** script.js, the static page's script: required-field validation, the
    submit listeners it races with, the analytics form type, the scroll
    throttle, and the handlers that close the three overlays. The DOM is
    modelled by small classes holding the properties the script writes. */
module PageScript {

  /* ---------------- trimming ---------------- */

  /** The characters `String.prototype.trim` removes: ECMAScript white space
      (tab, vertical tab, form feed, space, no-break space, the byte-order
      mark and the other space separators) and line terminators. */
  predicate IsJsSpace(c: char) {
    || c == '\t' || c == '\n' || c == '\U{0B}' || c == '\U{0C}' || c == '\r' || c == ' '
    || c == '\U{A0}' || c == '\U{1680}' || ('\U{2000}' <= c <= '\U{200A}')
    || c == '\U{2028}' || c == '\U{2029}' || c == '\U{202F}' || c == '\U{205F}'
    || c == '\U{3000}' || c == '\U{FEFF}'
  }

  function TrimStart(s: string): (r: string)
    ensures |r| <= |s| && r == s[|s| - |r|..]
    ensures |r| > 0 ==> !IsJsSpace(r[0])
  {
    if |s| > 0 && IsJsSpace(s[0]) then TrimStart(s[1..]) else s
  }

  function TrimEnd(s: string): (r: string)
    ensures |r| <= |s| && r == s[..|r|]
    ensures |r| > 0 ==> !IsJsSpace(r[|r| - 1])
  {
    if |s| > 0 && IsJsSpace(s[|s| - 1]) then TrimEnd(s[..|s| - 1]) else s
  }

  /** `s.trim()`. */
  function Trim(s: string): string {
    TrimEnd(TrimStart(s))
  }

  /** Every character of `s` is one `trim` removes. */
  predicate AllSpace(s: string) {
    forall i :: 0 <= i < |s| ==> IsJsSpace(s[i])
  }

  lemma {:induction false} TrimStartEmpty(s: string)
    ensures TrimStart(s) == "" <==> AllSpace(s)
    decreases |s|
  {
    if |s| > 0 {
      if IsJsSpace(s[0]) {
        TrimStartEmpty(s[1..]);
        assert AllSpace(s) <==> AllSpace(s[1..]) by {
          if AllSpace(s[1..]) {
            forall i | 0 <= i < |s| ensures IsJsSpace(s[i]) {
              if i > 0 { assert s[i] == s[1..][i - 1]; }
            }
          }
        }
      }
    }
  }

  /** Trailing trimming keeps a first character that is not white space. */
  lemma {:induction false} TrimEndKeepsHead(s: string)
    requires |s| > 0 && !IsJsSpace(s[0])
    ensures |TrimEnd(s)| > 0
    decreases |s|
  {
    if IsJsSpace(s[|s| - 1]) {
      TrimEndKeepsHead(s[..|s| - 1]);
    }
  }

  /** A value trims to nothing exactly when it is all white space (or empty). */
  lemma TrimEmptyIff(s: string)
    ensures Trim(s) == "" <==> AllSpace(s)
  {
    TrimStartEmpty(s);
    var t := TrimStart(s);
    if |t| > 0 {
      TrimEndKeepsHead(t);
    }
  }

  /* ---------------- validateForm ---------------- */

  const ErrorBorder := "#EF4444"
  const OkBorder := "#E2E8F0"

  /** A required input, select or textarea: its value and its border colour. */
  class Control {
    var value: string
    var borderColor: string

    constructor (value: string)
      ensures this.value == value && borderColor == ""
    {
      this.value := value;
      borderColor := "";
    }

    /** The `forEach` callback of `validateForm`: the error border when the
        value trims to nothing, the normal border otherwise. */
    method Check() returns (filled: bool)
      modifies this`borderColor
      ensures filled <==> !AllSpace(value)
      ensures borderColor == (if filled then OkBorder else ErrorBorder)
    {
      TrimEmptyIff(value);
      if Trim(value) == "" {
        borderColor := ErrorBorder;
        filled := false;
      } else {
        borderColor := OkBorder;
        filled := true;
      }
    }
  }

  /** The border `validateForm` gives a field with this value: the error
      colour exactly when the value trims to nothing. */
  function Border(value: string): (color: string)
    ensures color == ErrorBorder <==> AllSpace(value)
    ensures color == OkBorder <==> !AllSpace(value)
  {
    if AllSpace(value) then ErrorBorder else OkBorder
  }

  /** `validateForm(form)` over the form's required controls: every control
      is visited (no short-circuit) and gets the border its value calls for;
      the form is valid exactly when no required value trims to nothing, that
      is, none is all white space. Values are left as they are. */
  method ValidateForm(inputs: seq<Control>) returns (isValid: bool)
    modifies inputs`borderColor
    ensures isValid <==> forall j :: 0 <= j < |inputs| ==> !AllSpace(inputs[j].value)
    ensures forall j :: 0 <= j < |inputs| ==> inputs[j].borderColor == Border(inputs[j].value)
    ensures forall j :: 0 <= j < |inputs| ==> inputs[j].value == old(inputs[j].value)
  {
    isValid := true;
    for i := 0 to |inputs|
      invariant isValid <==> forall j :: 0 <= j < i ==> !AllSpace(inputs[j].value)
      invariant forall j :: 0 <= j < i ==> inputs[j].borderColor == Border(inputs[j].value)
    {
      var filled := inputs[i].Check();
      if !filled {
        isValid := false;
      }
    }
  }

  /* ---------------- submitting ---------------- */

  /** The alert the validation listener raises. */
  const IncompleteAlert := "Please fill in all required fields."

  /** What the validation listener does with a submit event. */
  datatype Guard = Proceed | Blocked(alert: string)

  function SubmitGuard(isValid: bool): (g: Guard)
    ensures g.Blocked? <==> !isValid
    ensures g.Blocked? ==> g.alert == IncompleteAlert
  {
    if isValid then Proceed else Blocked(IncompleteAlert)
  }

  /** The validation listener: validates, then blocks the submission with
      an alert exactly when some required value is all white space. */
  method OnSubmitValidate(inputs: seq<Control>) returns (g: Guard)
    modifies inputs`borderColor
    ensures g.Blocked? <==> exists j :: 0 <= j < |inputs| && AllSpace(inputs[j].value)
    ensures g.Blocked? ==> g.alert == IncompleteAlert
    ensures forall j :: 0 <= j < |inputs| ==> inputs[j].borderColor == Border(inputs[j].value)
  {
    var isValid := ValidateForm(inputs);
    g := SubmitGuard(isValid);
  }

  /** What one submission of a form leads to, across all of its listeners. */
  datatype Effects = Effects(alerted: bool, successShown: bool)

  /** As written: the simulated-send listener, registered first, always
      cancels the native submission and shows the success overlay after its
      delay; the validation listener, registered later, only adds the alert.
      The event only fires once the browser's own `required` check has
      passed, i.e. every value is non-empty; white space passes it. */
  function SubmitAsWritten(values: seq<string>): (e: Effects)
    requires forall i :: 0 <= i < |values| ==> values[i] != ""
    ensures e.successShown
    ensures e.alerted <==> exists i :: 0 <= i < |values| && AllSpace(values[i])
  {
    Effects(exists i :: 0 <= i < |values| && AllSpace(values[i]), true)
  }

  /** A name of a single space passes the browser's check, yet the visitor
      gets both the incomplete-form alert and the success overlay. */
  lemma BlankNameShowsBoth(email: string)
    requires email != ""
    ensures SubmitAsWritten([" ", email]) == Effects(true, true)
  {
    assert AllSpace([" ", email][0]);
  }

  /** Intended: the success overlay only for a form that passed validation. */
  function SubmitGuarded(values: seq<string>): (e: Effects)
    ensures e.successShown <==> !e.alerted
    ensures e.alerted <==> exists i :: 0 <= i < |values| && AllSpace(values[i])
  {
    var blank := exists i :: 0 <= i < |values| && AllSpace(values[i]);
    Effects(blank, !blank)
  }

  /** The two agree on every form that validates. */
  lemma GuardedAgreesWhenValid(values: seq<string>)
    requires forall i :: 0 <= i < |values| ==> values[i] != "" && !AllSpace(values[i])
    ensures SubmitGuarded(values) == SubmitAsWritten(values) == Effects(false, true)
  {
  }

  /* ---------------- analytics ---------------- */

  /** The event name tracked for a submitted form. */
  function FormType(formId: string): (t: string)
    ensures t == "beta_signup" <==> formId == "betaForm"
    ensures t == "contact_inquiry" <==> formId != "betaForm"
  {
    if formId == "betaForm" then "beta_signup" else "contact_inquiry"
  }

  /* ---------------- throttle ---------------- */

  /** `throttle(func, limit)`: the closure's `inThrottle` flag, the moment the
      timer that clears it may fire, and how often `func` has run. Times are
      in milliseconds and supplied by the caller; `lastRun` records the time
      of the latest run for the spacing property. */
  class Throttle {
    const limit: int
    var inThrottle: bool
    var releaseAt: int
    var runs: nat
    ghost var lastRun: int
    ghost var now: int

    /** The flag is set exactly while the timer of the latest run is pending,
        and that timer fires `limit` after the run. */
    ghost predicate Valid()
      reads this
    {
      && (inThrottle ==> releaseAt == lastRun + limit && now >= lastRun)
      && (!inThrottle && runs > 0 ==> now >= lastRun + limit)
    }

    constructor (limit: int, start: int)
      requires limit >= 0
      ensures Valid() && this.limit == limit && !inThrottle && runs == 0 && now == start
    {
      this.limit := limit;
      inThrottle := false;
      releaseAt := start;
      runs := 0;
      lastRun := start;
      now := start;
    }

    /** A call of the throttled function: `func` runs exactly when the flag is
        clear, and the flag is then set with a timer `limit` ahead; a call
        while the flag is set is dropped and changes nothing. */
    method Call(t: int) returns (ran: bool)
      requires Valid() && t >= now
      modifies this
      ensures Valid() && now == t
      ensures ran <==> !old(inThrottle)
      ensures inThrottle
      ensures ran ==> runs == old(runs) + 1 && lastRun == t && releaseAt == t + limit
      ensures !ran ==> runs == old(runs) && lastRun == old(lastRun) && releaseAt == old(releaseAt)
      ensures ran && old(runs) > 0 ==> t >= old(lastRun) + limit
    {
      now := t;
      if !inThrottle {
        runs := runs + 1;
        lastRun := t;
        inThrottle := true;
        releaseAt := t + limit;
        ran := true;
      } else {
        ran := false;
      }
    }

    /** The pending timer fires (no earlier than `limit` after the run that
        scheduled it) and clears the flag. */
    method TimerFires(t: int)
      requires Valid() && inThrottle && t >= now && t >= releaseAt
      modifies this
      ensures Valid() && now == t
      ensures !inThrottle && runs == old(runs) && lastRun == old(lastRun)
    {
      now := t;
      inThrottle := false;
    }
  }

  /* ---------------- overlays ---------------- */

  /** The three overlays a handler may target. */
  datatype Target = BetaModal | ContactModal | SuccessMessage | Elsewhere

  /** The display of the beta modal, the contact modal and the success
      overlay, and the body's overflow. */
  class Page {
    var betaDisplay: string
    var contactDisplay: string
    var successDisplay: string
    var overflow: string

    constructor ()
      ensures betaDisplay == "" && contactDisplay == "" && successDisplay == "" && overflow == ""
    {
      betaDisplay, contactDisplay, successDisplay, overflow := "", "", "", "";
    }

    /** `openBetaForm()`: show the modal and stop the body scrolling. */
    method OpenBetaForm()
      modifies this
      ensures betaDisplay == "block" && overflow == "hidden"
      ensures contactDisplay == old(contactDisplay) && successDisplay == old(successDisplay)
    {
      betaDisplay := "block";
      overflow := "hidden";
    }

    /** `closeBetaForm()`. */
    method CloseBetaForm()
      modifies this
      ensures betaDisplay == "none" && overflow == "auto"
      ensures contactDisplay == old(contactDisplay) && successDisplay == old(successDisplay)
    {
      betaDisplay := "none";
      overflow := "auto";
    }

    /** `openContactForm()`. */
    method OpenContactForm()
      modifies this
      ensures contactDisplay == "block" && overflow == "hidden"
      ensures betaDisplay == old(betaDisplay) && successDisplay == old(successDisplay)
    {
      contactDisplay := "block";
      overflow := "hidden";
    }

    /** `closeContactForm()`. */
    method CloseContactForm()
      modifies this
      ensures contactDisplay == "none" && overflow == "auto"
      ensures betaDisplay == old(betaDisplay) && successDisplay == old(successDisplay)
    {
      contactDisplay := "none";
      overflow := "auto";
    }

    /** `closeSuccessMessage()`. */
    method CloseSuccessMessage()
      modifies this
      ensures successDisplay == "none" && overflow == "auto"
      ensures betaDisplay == old(betaDisplay) && contactDisplay == old(contactDisplay)
    {
      successDisplay := "none";
      overflow := "auto";
    }

    /** The keydown listener: Escape hides all three overlays and lets the
        body scroll again; any other key changes nothing. */
    method OnKeyDown(key: string)
      modifies this
      ensures key == "Escape" ==>
                betaDisplay == "none" && contactDisplay == "none" && successDisplay == "none" && overflow == "auto"
      ensures key != "Escape" ==>
                betaDisplay == old(betaDisplay) && contactDisplay == old(contactDisplay)
                && successDisplay == old(successDisplay) && overflow == old(overflow)
    {
      if key == "Escape" {
        CloseBetaForm();
        CloseContactForm();
        CloseSuccessMessage();
      }
    }

    /** The window click listener: a click on an overlay's backdrop closes
        that overlay only. */
    method OnWindowClick(target: Target)
      modifies this
      ensures target == BetaModal ==> betaDisplay == "none" && overflow == "auto"
      ensures target == ContactModal ==> contactDisplay == "none" && overflow == "auto"
      ensures target == SuccessMessage ==> successDisplay == "none" && overflow == "auto"
      ensures target != BetaModal ==> betaDisplay == old(betaDisplay)
      ensures target != ContactModal ==> contactDisplay == old(contactDisplay)
      ensures target != SuccessMessage ==> successDisplay == old(successDisplay)
      ensures target == Elsewhere ==> overflow == old(overflow)
    {
      if target == BetaModal {
        CloseBetaForm();
      }
      if target == ContactModal {
        CloseContactForm();
      }
      if target == SuccessMessage {
        CloseSuccessMessage();
      }
    }
  }
}
