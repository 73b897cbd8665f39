/** The OTP verification page: four single-digit input slots that edit one
    code string, a focused slot, and a submit that calls the verification
    endpoint and either navigates to the login page or shows an error. */
module Otp {
  import opened Wrappers
  import JsArray

  /** Number of input slots rendered. */
  const SlotCount: nat := 4

  /** Where a successful verification navigates. */
  const LoginPath: string := "/login"

  /** The message used when a failed response carries no usable `message`. */
  const GenericFailure: string := "OTP failed"

  /** The key whose press on an empty slot moves focus back. */
  const Backspace: string := "Backspace"

  // ---------------------------------------------------------------------
  // The code string and the slots

  predicate IsDigit(c: char)
  {
    '0' <= c <= '9'
  }

  /** Every character is an ASCII decimal digit. */
  predicate IsDigits(s: string)
  {
    forall k :: 0 <= k < |s| ==> IsDigit(s[k])
  }

  /** The keystroke filter: `/^\d$/` matches, or the value is empty. */
  predicate Accepts(value: string)
  {
    (|value| == 1 && IsDigit(value[0])) || value == ""
  }

  /** What slot `i` displays: the `i`-th character, or "" when the code is
      shorter. */
  function SlotText(code: string, i: nat): string
  {
    if i < |code| then [code[i]] else ""
  }

  /** The edit a keystroke makes: split the code into characters, store the
      value at the slot's index, join again. */
  function EditCode(code: string, index: nat, value: string): (r: string)
    ensures index < |code| ==> r == code[..index] + value + code[index + 1..]
    ensures |code| <= index ==> r == code + value
  {
    if index < |code| then
      JsArray.JoinStoreInside(code, index, value);
      JsArray.Join(JsArray.Store(JsArray.Split(code), index, value))
    else
      JsArray.JoinStorePastEnd(code, index, value);
      JsArray.Join(JsArray.Store(JsArray.Split(code), index, value))
  }

  /** The editable part of the page state: the code and the focused slot. */
  datatype Form = Form(code: string, focus: nat)

  /** Digits only, at most one per slot, focus on a slot. */
  predicate WellFormed(f: Form)
  {
    IsDigits(f.code) && |f.code| <= SlotCount && f.focus < SlotCount
  }

  /** The state change of a change event with `value` on slot `index`. */
  function OnInput(f: Form, index: nat, value: string): (r: Form)
    ensures !Accepts(value) ==> r == f
    ensures Accepts(value) && index < |f.code| ==>
              r.code == f.code[..index] + value + f.code[index + 1..]
    ensures Accepts(value) && |f.code| <= index ==> r.code == f.code + value
    ensures Accepts(value) && value != "" && index < SlotCount - 1 ==> r.focus == index + 1
    ensures !(Accepts(value) && value != "" && index < SlotCount - 1) ==> r.focus == f.focus
  {
    if !Accepts(value) then f
    else Form(EditCode(f.code, index, value),
              if value != "" && index < SlotCount - 1 then index + 1 else f.focus)
  }

  /** Inside the code, an accepted digit overwrites the character at the
      slot and the empty value deletes it, shortening the code by one. */
  lemma OnInputEditsOneCharacter(f: Form, index: nat, value: string)
    requires Accepts(value) && index < |f.code|
    ensures value != "" ==> OnInput(f, index, value).code == f.code[index := value[0]]
    ensures value == "" ==> OnInput(f, index, value).code == f.code[..index] + f.code[index + 1..]
  {
    var r := OnInput(f, index, value);
    if value == "" {
      assert f.code[..index] + value == f.code[..index];
    } else {
      assert value == [value[0]];
      SpliceOne(f.code, index, value[0]);
    }
  }

  /** Starting from a well-formed state, every keystroke on one of the four
      slots leaves the code digits-only and at most four characters long,
      and focus on a slot. */
  lemma OnInputKeepsWellFormed(f: Form, index: nat, value: string)
    requires WellFormed(f) && index < SlotCount
    ensures WellFormed(OnInput(f, index, value))
  {
    if Accepts(value) {
      EditCodeKeepsDigits(f.code, index, value);
    }
  }

  /** Replacing the one-character slice at `i` is an update at `i`. */
  lemma SpliceOne(s: string, i: nat, c: char)
    requires i < |s|
    ensures s[..i] + [c] + s[i + 1..] == s[i := c]
  {
  }

  /** An accepted value keeps the code digits-only; the code grows by at
      most one character, and only when the index is at or past its end. */
  lemma EditCodeKeepsDigits(code: string, index: nat, value: string)
    requires Accepts(value)
    ensures IsDigits(code) ==> IsDigits(EditCode(code, index, value))
    ensures index < |code| ==> |EditCode(code, index, value)| <= |code|
    ensures |code| <= index ==> |EditCode(code, index, value)| <= |code| + 1
  {
    var r := EditCode(code, index, value);
    if IsDigits(code) {
      forall k | 0 <= k < |r| ensures IsDigit(r[k]) {
        if index < |code| {
          if k < index {
            assert r[k] == code[k];
          } else if k < index + |value| {
            assert r[k] == value[0];
          } else {
            assert r[k] == code[k - |value| + 1];
          }
        } else if k < |code| {
          assert r[k] == code[k];
        } else {
          assert r[k] == value[0];
        }
      }
    }
  }

  /** The state change of a key-down event with `key` on slot `index`. */
  function OnKeyDown(f: Form, index: nat, key: string): (r: Form)
    ensures r.code == f.code
    ensures key == Backspace && |f.code| <= index && index > 0 ==> r.focus == index - 1
    ensures !(key == Backspace && |f.code| <= index && index > 0) ==> r.focus == f.focus
    ensures WellFormed(f) && index < SlotCount ==> WellFormed(r)
  {
    if key == Backspace && SlotText(f.code, index) == "" && index > 0 then
      Form(f.code, index - 1)
    else
      f
  }

  /** The state after typing `ds[k]` into slot `k`, for each `k` in order,
      starting from the empty code with slot 0 autofocused. */
  function TypeInOrder(ds: string): Form
  {
    if ds == [] then Form("", 0)
    else OnInput(TypeInOrder(ds[..|ds| - 1]), |ds| - 1, [ds[|ds| - 1]])
  }

  /** Typing up to four digits into consecutive slots from the start spells
      exactly those digits, and focus ends on the slot after the last one
      typed, or on the last slot. */
  lemma {:induction false} TypingInOrderSpellsDigits(ds: string)
    requires IsDigits(ds) && |ds| <= SlotCount
    ensures TypeInOrder(ds).code == ds
    ensures TypeInOrder(ds).focus == if |ds| < SlotCount then |ds| else SlotCount - 1
  {
    if ds != [] {
      var n := |ds| - 1;
      var prefix := ds[..n];
      assert IsDigits(prefix) by {
        forall k | 0 <= k < n ensures IsDigit(prefix[k]) {
          assert prefix[k] == ds[k];
        }
      }
      TypingInOrderSpellsDigits(prefix);
      TypingDigitAtEnd(TypeInOrder(prefix), n, ds[n]);
      assert prefix + [ds[n]] == ds;
    }
  }

  /** One step of typing in order: a digit typed into the slot just past
      the code is appended, and focus moves on unless it was the last slot. */
  lemma TypingDigitAtEnd(f: Form, index: nat, d: char)
    requires |f.code| == index && IsDigit(d)
    ensures OnInput(f, index, [d]) ==
              Form(f.code + [d], if index < SlotCount - 1 then index + 1 else f.focus)
  {
    assert Accepts([d]);
  }

  /** The four slots, read left to right, spell the code. */
  lemma SlotsSpellCode(code: string)
    requires |code| <= SlotCount
    ensures SlotText(code, 0) + SlotText(code, 1) + SlotText(code, 2) + SlotText(code, 3) == code
  {
  }

  /** Clearing a filled slot deletes its digit: every later digit now shows
      one slot further left, and the last filled slot becomes empty. */
  lemma ClearingShiftsLaterDigits(code: string, i: nat, j: nat)
    requires i < |code| && i <= j
    ensures |EditCode(code, i, "")| == |code| - 1
    ensures SlotText(EditCode(code, i, ""), j) == SlotText(code, j + 1)
  {
  }

  /** A digit typed into an empty slot past the end of the code lands in
      the first empty slot, and the slot typed into stays empty. */
  lemma TypingPastEndLandsInFirstEmptySlot(code: string, index: nat, d: char)
    requires |code| < index
    ensures SlotText(EditCode(code, index, [d]), |code|) == [d]
    ensures SlotText(EditCode(code, index, [d]), index) == ""
    ensures forall j: nat :: j < |code| ==> SlotText(EditCode(code, index, [d]), j) == SlotText(code, j)
  {
  }

  // ---------------------------------------------------------------------
  // Submission

  /** A response body as `response.json()` sees it. */
  datatype Body =
    | Json(message: Option<string>)   // parses; `message` is its message field, if present
    | Malformed(reason: string)       // `json()` rejects with this description

  /** How the call to the verification endpoint settles. */
  datatype Outcome =
    | Response(ok: bool, body: Body)  // an HTTP response; `ok` is a success status
    | Transport(reason: string)       // the fetch itself rejects

  /** The try block of the submit handler: completes with the navigation
      target, or throws an error with a message. */
  function Attempt(outcome: Outcome): Result<string, string>
  {
    match outcome
    case Transport(reason) => Failure(reason)
    case Response(ok, Malformed(reason)) => Failure(reason)
    case Response(ok, Json(message)) =>
      if !ok then
        Failure(if message.Some? && message.value != "" then message.value else GenericFailure)
      else
        Success(LoginPath)
  }

  /** What a settled submission leaves behind: the error to show and where
      to navigate. */
  datatype Settled = Settled(error: Option<string>, navigateTo: Option<string>)

  /** The catch clause: a thrown error becomes the shown error. */
  function Settle(outcome: Outcome): (s: Settled)
    ensures s.navigateTo.Some? <==> outcome.Response? && outcome.ok && outcome.body.Json?
    ensures s.navigateTo.Some? ==> s.navigateTo.value == LoginPath
    ensures s.error.Some? <==> s.navigateTo.None?
    ensures outcome.Response? && !outcome.ok && outcome.body.Json? ==>
              s.error == Some(if outcome.body.message.Some? && outcome.body.message.value != ""
                              then outcome.body.message.value else GenericFailure)
    ensures outcome.Response? && outcome.body.Malformed? ==> s.error == Some(outcome.body.reason)
    ensures outcome.Transport? ==> s.error == Some(outcome.reason)
  {
    match Attempt(outcome)
    case Success(target) => Settled(None, Some(target))
    case Failure(message) => Settled(Some(message), None)
  }

  // ---------------------------------------------------------------------
  // The page component

  class OtpPage {
    var code: string
    var focus: nat
    var loading: bool
    var error: Option<string>
    /** The last navigation requested, if any. */
    var navigatedTo: Option<string>
    /** The `otpCode` payload of every request sent, oldest first. */
    var requests: seq<string>

    ghost predicate Valid()
      reads this
    {
      && WellFormed(Form(code, focus))
      && (loading ==> error == None)
      && (navigatedTo == None || navigatedTo == Some(LoginPath))
    }

    /** Mounting: empty code, slot 0 autofocused, idle, no error. */
    constructor ()
      ensures Valid()
      ensures code == "" && focus == 0 && !loading && error == None
      ensures navigatedTo == None && requests == []
    {
      code, focus, loading, error := "", 0, false, None;
      navigatedTo, requests := None, [];
    }

    /** The error paragraph: rendered only for a non-empty message. */
    function ShownError(): (m: Option<string>)
      reads this
      ensures m.Some? ==> m.value != "" && error == m
      ensures error.Some? && error.value != "" ==> m == error
    {
      if error.Some? && error.value != "" then error else None
    }

    /** `handleInputChange`: filter the keystroke, edit the code, advance focus. */
    method HandleInputChange(index: nat, value: string)
      requires Valid() && index < SlotCount
      modifies this
      ensures Valid()
      ensures Form(code, focus) == OnInput(old(Form(code, focus)), index, value)
      ensures loading == old(loading) && error == old(error)
      ensures navigatedTo == old(navigatedTo) && requests == old(requests)
    {
      OnInputKeepsWellFormed(Form(code, focus), index, value);
      if !Accepts(value) {
        return;
      }
      code := EditCode(code, index, value);
      if value != "" && index < SlotCount - 1 {
        focus := index + 1;
      }
    }

    /** `handleKeyDown`: Backspace on an empty slot moves focus back one. */
    method HandleKeyDown(index: nat, key: string)
      requires Valid() && index < SlotCount
      modifies this
      ensures Valid()
      ensures Form(code, focus) == OnKeyDown(old(Form(code, focus)), index, key)
      ensures loading == old(loading) && error == old(error)
      ensures navigatedTo == old(navigatedTo) && requests == old(requests)
    {
      if key == Backspace && SlotText(code, index) == "" {
        if index > 0 {
          focus := index - 1;
        }
      }
    }

    /** The synchronous start of `handleSubmit`: set loading, clear the
        error, send the code. The submit button is disabled while loading. */
    method BeginSubmit()
      requires Valid() && !loading
      modifies this
      ensures Valid()
      ensures loading && error == None
      ensures requests == old(requests) + [code]
      ensures code == old(code) && focus == old(focus) && navigatedTo == old(navigatedTo)
    {
      loading := true;
      error := None;
      requests := requests + [code];
    }

    /** The rest of `handleSubmit`, once the call settles: navigate or record
        the error, and in every case clear loading. */
    method FinishSubmit(outcome: Outcome)
      requires Valid() && loading
      modifies this
      ensures Valid()
      ensures !loading
      ensures error == Settle(outcome).error
      ensures navigatedTo == if Settle(outcome).navigateTo.Some? then Settle(outcome).navigateTo
                             else old(navigatedTo)
      ensures code == old(code) && focus == old(focus) && requests == old(requests)
    {
      match Attempt(outcome) {
        case Success(target) =>
          navigatedTo := Some(target);
        case Failure(message) =>
          error := Some(message);
      }
      loading := false;
    }

    /** `handleSubmit` as one step, from the click to the settled outcome. */
    method HandleSubmit(outcome: Outcome)
      requires Valid() && !loading
      modifies this
      ensures Valid()
      ensures !loading
      ensures requests == old(requests) + [old(code)]
      ensures error == Settle(outcome).error
      ensures navigatedTo == if Settle(outcome).navigateTo.Some? then Settle(outcome).navigateTo
                             else old(navigatedTo)
      ensures code == old(code) && focus == old(focus)
    {
      BeginSubmit();
      FinishSubmit(outcome);
    }
  }
}
