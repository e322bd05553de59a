/** The four-cell form for the e-mailed code: typing, deleting, pasting and
    submitting. The focus is recorded as the cell that received it last; focus
    moves go through `inputsRef`, the array of registered input elements. */
module OtpForm {
  import opened Wrappers
  import opened Js
  import Text
  import Users

  const Cells := 4

  /** `pasted.split('')`: one cell per character. */
  function Chars(s: string): (cells: seq<string>)
    ensures |cells| == |s|
  {
    seq(|s|, i requires 0 <= i < |s| => [s[i]])
  }

  /** Splitting into characters and joining them back gives the text. */
  lemma {:induction false} ConcatChars(s: string)
    ensures Text.Concat(Chars(s)) == s
  {
    if s != [] {
      assert Chars(s)[1..] == Chars(s[1..]);
      ConcatChars(s[1..]);
    }
  }

  /** Joining cells of digits gives digits. */
  lemma {:induction false} ConcatDigits(cells: seq<string>)
    requires forall i :: 0 <= i < |cells| ==> Text.AllDigits(cells[i])
    ensures Text.AllDigits(Text.Concat(cells))
  {
    if cells != [] {
      ConcatDigits(cells[1..]);
      var rest := Text.Concat(cells[1..]);
      assert Text.Concat(cells) == cells[0] + rest;
      forall k | 0 <= k < |cells[0] + rest| ensures Text.IsDigit((cells[0] + rest)[k]) {
        if k >= |cells[0]| {
          assert (cells[0] + rest)[k] == rest[k - |cells[0]|];
        }
      }
    }
  }

  /** Joining one-character cells gives one character per cell, in order. */
  lemma {:induction false} ConcatSingles(cells: seq<string>)
    requires forall i :: 0 <= i < |cells| ==> |cells[i]| == 1
    ensures |Text.Concat(cells)| == |cells|
    ensures forall i :: 0 <= i < |cells| ==> Text.Concat(cells)[i] == cells[i][0]
  {
    if cells != [] {
      ConcatSingles(cells[1..]);
      assert Text.Concat(cells) == cells[0] + Text.Concat(cells[1..]);
      forall i | 1 <= i < |cells| ensures Text.Concat(cells)[i] == cells[i][0] {
        assert cells[1..][i - 1] == cells[i];
      }
    }
  }

  /** `inputsRef.current[k].focus()`: the element registered at position `k`
      receives the focus. A position past the end of `inputsRef.current` holds
      `undefined`, and calling `focus` on it throws a TypeError. */
  function FocusAt(refs: seq<nat>, k: int): (r: Eval<nat>)
    ensures r.Done? <==> 0 <= k < |refs|
    ensures r.Done? ==> r.value == refs[k]
  {
    if 0 <= k < |refs| then Done(refs[k]) else Threw
  }

  /** Where `handleInput` sends the focus: to the next registered element, when
      the value is non-empty and the index is before the last registered one. */
  function InputFocus(refs: seq<nat>, value: string, index: nat): (target: Option<nat>)
    ensures target.Some? <==> value != "" && index + 1 < |refs|
    ensures target.Some? ==> FocusAt(refs, index + 1) == Done(target.value)
  {
    if value != "" && index < |refs| - 1 then Some(refs[index + 1]) else None
  }

  /** No rendered input carries a `ref`, so `inputsRef.current` keeps the empty
      array `useRef([])` gave it: typing never moves the focus, and every
      `focus` call through a ref throws. */
  lemma UnattachedRefs()
    ensures forall value, index :: InputFocus([], value, index) == None
    ensures forall k :: FocusAt([], k) == Threw
  {
  }

  /** The registrations the inputs evidently were meant to make: input `i`
      stored at `inputsRef.current[i]`. */
  const AttachedRefs: seq<nat> := [0, 1, 2, 3]

  /** With every input registered, a non-empty value moves the focus to the
      next cell unless it was the last, and every cell can be focused. */
  lemma AttachedRefsFocus(value: string, index: nat)
    requires index < Cells
    ensures InputFocus(AttachedRefs, value, index) == (if value != "" && index < Cells - 1 then Some(index + 1) else None)
    ensures FocusAt(AttachedRefs, index) == Done(index)
  {
  }

  /** The form's React state, the `inputsRef` array of registered input
      elements (each given as the cell it renders) and the DOM focus. */
  class CodeForm {
    var otp: seq<string>
    var inputsRef: seq<nat>
    var focused: Option<nat>

    /** Four cells, each holding only digits; registered elements and the
        focus stay among the four cells. */
    ghost predicate Valid()
      reads this
    {
      |otp| == Cells && (forall i :: 0 <= i < |otp| ==> Text.AllDigits(otp[i]))
      && (forall i :: 0 <= i < |inputsRef| ==> inputsRef[i] < Cells)
      && (focused.Some? ==> focused.value < Cells)
    }

    /** The first render: four empty cells, `useRef([])` and no focus. */
    constructor ()
      ensures otp == ["", "", "", ""] && inputsRef == [] && focused == None && Valid()
    {
      otp := ["", "", "", ""];
      inputsRef := [];
      focused := None;
    }

    /** The evidently intended `ref` callback on each input, storing input `i`
        at `inputsRef.current[i]`. No input of the form has one. */
    method AttachInputs()
      requires Valid()
      modifies this`inputsRef
      ensures Valid() && inputsRef == AttachedRefs
    {
      inputsRef := AttachedRefs;
    }

    /** `handleInput`: the cell takes the value, and the focus moves as
        `InputFocus` says; with no registered elements it stays. */
    method HandleInput(value: string, index: nat)
      requires Valid() && index < Cells && Text.AllDigits(value)
      modifies this`otp, this`focused
      ensures Valid()
      ensures otp == old(otp)[index := value]
      ensures InputFocus(inputsRef, value, index).Some? ==> focused == InputFocus(inputsRef, value, index)
      ensures InputFocus(inputsRef, value, index).None? ==> focused == old(focused)
    {
      otp := otp[index := value];
      if value != "" && index < |inputsRef| - 1 {
        focused := Some(inputsRef[index + 1]);
      }
    }

    /** `onChange`: what was typed, with everything but digits removed. */
    method OnChange(raw: string, index: nat)
      requires Valid() && index < Cells
      modifies this`otp, this`focused
      ensures Valid()
      ensures otp == old(otp)[index := Text.DigitsOnly(raw)]
      ensures InputFocus(inputsRef, Text.DigitsOnly(raw), index).Some? ==>
                focused == InputFocus(inputsRef, Text.DigitsOnly(raw), index)
      ensures InputFocus(inputsRef, Text.DigitsOnly(raw), index).None? ==> focused == old(focused)
    {
      HandleInput(Text.DigitsOnly(raw), index);
    }

    /** `handleKeyDown`: Backspace or Delete on an empty cell after the
        first focuses the previous registered element, throwing when there is
        none; on any other cell it clears the cell. Other keys do nothing. */
    method HandleKeyDown(key: string, index: nat) returns (r: Eval<()>)
      requires Valid() && index < Cells
      modifies this`otp, this`focused
      ensures Valid()
      ensures key != "Backspace" && key != "Delete" ==> r == Done(()) && otp == old(otp) && focused == old(focused)
      ensures (key == "Backspace" || key == "Delete") && old(otp)[index] == "" && index > 0 ==>
                otp == old(otp)
                && (FocusAt(inputsRef, index - 1).Threw? ==> r == Threw && focused == old(focused))
                && (FocusAt(inputsRef, index - 1).Done? ==>
                      r == Done(()) && focused == Some(FocusAt(inputsRef, index - 1).value))
      ensures (key == "Backspace" || key == "Delete") && !(old(otp)[index] == "" && index > 0) ==>
                r == Done(()) && otp == old(otp)[index := ""] && focused == old(focused)
    {
      r := Done(());
      if key == "Backspace" || key == "Delete" {
        if otp[index] == "" && index > 0 {
          var target := FocusAt(inputsRef, index - 1);
          if target.Threw? {
            return Threw;
          }
          focused := Some(target.value);
        } else {
          HandleInput("", index);
        }
      }
    }

    /** `handlePaste`: the trimmed clipboard text fills the form only when it
        is exactly four ASCII digits, and submitting then gives back the pasted
        code; the focus then goes to the last registered element, and with
        fewer than four the call throws after the cells are filled. */
    method HandlePaste(text: string) returns (r: Eval<()>)
      requires Valid()
      modifies this`otp, this`focused
      ensures Valid()
      ensures var p := Text.Strip(text, Text.IsJsSpace);
              Users.IsOtp(p) ==> otp == Chars(p) && Submitted() == p
      ensures var p := Text.Strip(text, Text.IsJsSpace);
              Users.IsOtp(p) && FocusAt(inputsRef, Cells - 1).Threw? ==> r == Threw && focused == old(focused)
      ensures var p := Text.Strip(text, Text.IsJsSpace);
              Users.IsOtp(p) && FocusAt(inputsRef, Cells - 1).Done? ==>
                r == Done(()) && focused == Some(FocusAt(inputsRef, Cells - 1).value)
      ensures !Users.IsOtp(Text.Strip(text, Text.IsJsSpace)) ==> r == Done(()) && otp == old(otp) && focused == old(focused)
    {
      r := Done(());
      var pasted := Text.Strip(text, Text.IsJsSpace);
      if |pasted| == Cells && Text.AllDigits(pasted) {
        var digits := Chars(pasted);
        forall i | 0 <= i < |digits| ensures Text.AllDigits(digits[i]) {
          assert digits[i] == [pasted[i]];
        }
        otp := digits;
        ConcatChars(pasted);
        var target := FocusAt(inputsRef, |digits| - 1);
        if target.Threw? {
          return Threw;
        }
        focused := Some(target.value);
      }
    }

    /** `handleSubmit`: the cells joined. The result is always digits, and
        when every cell holds one digit it is a code the backend can match,
        digit by digit from the first cell. */
    function Submitted(): (code: string)
      requires Valid()
      reads this
      ensures Text.AllDigits(code)
      ensures (forall i :: 0 <= i < Cells ==> |otp[i]| == 1) ==>
                Users.IsOtp(code) && forall i :: 0 <= i < Cells ==> code[i] == otp[i][0]
    {
      ConcatDigits(otp);
      if forall i :: 0 <= i < Cells ==> |otp[i]| == 1 then
        ConcatSingles(otp);
        Text.Concat(otp)
      else
        Text.Concat(otp)
    }
  }
}
