/**
 * The attendance PIN form: its validation rules (a four-digit PIN, optional
 * notes of at most 500 characters) and its field state, which returns to the
 * defaults after a valid submission.
 */
module AttendancePinForm {
  import opened Wrappers

  predicate IsDigit(c: char) {
    '0' <= c <= '9'
  }

  /** /^\d{4}$/ on a string of length 4. */
  predicate IsFourDigitPin(s: string) {
    |s| == 4 && forall i :: 0 <= i < |s| ==> IsDigit(s[i])
  }

  const MaxNotesLength: nat := 500

  predicate NotesOk(notes: Option<string>) {
    notes.None? || |notes.value| <= MaxNotesLength
  }

  datatype PinFormData = PinFormData(pin: string, notes: Option<string>)

  predicate IsValidSubmission(d: PinFormData) {
    IsFourDigitPin(d.pin) && NotesOk(d.notes)
  }

  // ---- The PIN space: exactly the numbers 0..9999, zero-padded ----

  function DigitValue(c: char): nat
    requires IsDigit(c)
  {
    c as nat - '0' as nat
  }

  function DigitChar(n: nat): (c: char)
    requires n < 10
    ensures IsDigit(c) && DigitValue(c) == n
  {
    ('0' as nat + n) as char
  }

  /** The number a four-digit PIN spells. */
  function PinValue(s: string): nat
    requires IsFourDigitPin(s)
  {
    DigitValue(s[0]) * 1000 + DigitValue(s[1]) * 100 + DigitValue(s[2]) * 10 + DigitValue(s[3])
  }

  /** The zero-padded PIN of a number below 10000. */
  function PinOf(n: nat): string
    requires n < 10000
  {
    [DigitChar(n / 1000), DigitChar(n / 100 % 10), DigitChar(n / 10 % 10), DigitChar(n % 10)]
  }

  lemma PinOfRoundTrip(n: nat)
    requires n < 10000
    ensures IsFourDigitPin(PinOf(n)) && PinValue(PinOf(n)) == n
  {
    var a, b, c, d := n / 1000, n / 100 % 10, n / 10 % 10, n % 10;
    assert n / 100 == a * 10 + b;
    assert n / 10 == (a * 10 + b) * 10 + c;
    assert n == ((a * 10 + b) * 10 + c) * 10 + d;
  }

  lemma PinValueRoundTrip(s: string)
    requires IsFourDigitPin(s)
    ensures PinValue(s) < 10000 && PinOf(PinValue(s)) == s
  {
    var a, b, c, d := DigitValue(s[0]), DigitValue(s[1]), DigitValue(s[2]), DigitValue(s[3]);
    var n := PinValue(s);
    assert n / 1000 == a;
    assert n / 100 == a * 10 + b;
    assert (a * 10 + b) % 10 == b;
    assert n / 10 == a * 100 + b * 10 + c;
    assert (a * 100 + b * 10 + c) % 10 == c;
    assert n % 10 == d;
    assert DigitChar(a) == s[0] && DigitChar(b) == s[1] && DigitChar(c) == s[2] && DigitChar(d) == s[3];
  }

  // ---- The form state ----

  class PinForm {
    var pin: string
    var notes: string

    /** The defaults: an empty PIN and empty notes. */
    constructor ()
      ensures pin == "" && notes == ""
    {
      pin, notes := "", "";
    }

    /** The user types into the fields. */
    method Enter(p: string, n: string)
      modifies this
      ensures pin == p && notes == n
    {
      pin, notes := p, n;
    }

    /**
     * form.handleSubmit(handleSubmit): a valid submission is handed on and the
     * form is reset to its defaults; an invalid one is held back and the
     * fields keep their values.
     */
    method Submit() returns (sent: Option<PinFormData>)
      modifies this
      ensures IsValidSubmission(PinFormData(old(pin), Some(old(notes)))) ==>
        sent == Some(PinFormData(old(pin), Some(old(notes)))) && pin == "" && notes == ""
      ensures !IsValidSubmission(PinFormData(old(pin), Some(old(notes)))) ==>
        sent == None && pin == old(pin) && notes == old(notes)
    {
      var data := PinFormData(pin, Some(notes));
      if IsFourDigitPin(data.pin) && NotesOk(data.notes) {
        sent := Some(data);
        pin, notes := "", "";
      } else {
        sent := None;
      }
    }
  }
}
