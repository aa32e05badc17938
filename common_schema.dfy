/**
 * The shared field validators of backend/src/schemas/common.schema.ts as
 * string predicates: a MongoDB ObjectId in hexadecimal, a 24-hour `HH:mm`
 * time, and the `{ id }` route parameter.
 */
module CommonSchema {

  import opened Text

  predicate IsHexDigit(c: char) {
    '0' <= c <= '9' || 'a' <= c <= 'f' || 'A' <= c <= 'F'
  }

  /** `objectIdSchema`: `^[0-9a-fA-F]{24}$`. */
  predicate IsObjectId(s: string) {
    |s| == 24 && forall k | 0 <= k < |s| :: IsHexDigit(s[k])
  }

  /** `timeSchema`: `^([01]\d|2[0-3]):[0-5]\d$`. */
  predicate IsTime(s: string) {
    && |s| == 5
    && (((s[0] == '0' || s[0] == '1') && IsDigit(s[1])) || (s[0] == '2' && '0' <= s[1] <= '3'))
    && s[2] == ':'
    && '0' <= s[3] <= '5' && IsDigit(s[4])
  }

  function DigitValue(c: char): int {
    c as int - '0' as int
  }

  function Hour(s: string): int
    requires IsTime(s)
  {
    10 * DigitValue(s[0]) + DigitValue(s[1])
  }

  function Minute(s: string): int
    requires IsTime(s)
  {
    10 * DigitValue(s[3]) + DigitValue(s[4])
  }

  /** Minutes since midnight of an `HH:mm` time; a valid time is within one day. */
  function Minutes(s: string): (m: int)
    requires IsTime(s)
    ensures 0 <= Hour(s) < 24 && 0 <= Minute(s) < 60
    ensures 0 <= m < 24 * 60
  {
    60 * Hour(s) + Minute(s)
  }

  /** `idParamSchema`: an object whose `id` is an ObjectId; other keys are ignored. */
  predicate IdParamOk(params: map<string, string>) {
    "id" in params && IsObjectId(params["id"])
  }

  /** Hexadecimal digits are accepted in either case. */
  lemma ObjectIdIgnoresCase(s: string)
    ensures IsObjectId(s) <==> IsObjectId(Lower(s))
  {
    if IsObjectId(Lower(s)) {
      forall k | 0 <= k < |s| ensures IsHexDigit(s[k]) {
        assert Lower(s)[k] == LowerChar(s[k]);
      }
    }
  }

  /** An hour without its leading zero and the hour 24 are both rejected. */
  lemma TimeRejectsExamples()
    ensures !IsTime("9:00") && !IsTime("24:00") && !IsTime("12:60")
    ensures IsTime("00:00") && IsTime("23:59")
  {
  }

  /** Two distinct valid times are at distinct minutes. */
  lemma MinutesInjective(a: string, b: string)
    requires IsTime(a) && IsTime(b) && Minutes(a) == Minutes(b)
    ensures a == b
  {
    assert Hour(a) == Hour(b) && Minute(a) == Minute(b);
    assert a[0] == b[0] && a[1] == b[1] && a[3] == b[3] && a[4] == b[4];
  }

  /** String order of valid times implies chronological order. */
  lemma TimeLessIsEarlier(a: string, b: string)
    requires IsTime(a) && IsTime(b) && LexLess(a, b)
    ensures Minutes(a) < Minutes(b)
  {
    if a[0] == b[0] {
      assert LexLess(a[1..], b[1..]);
      if a[1] == b[1] {
        assert a[1..][1..] == a[2..] && b[1..][1..] == b[2..];
        assert LexLess(a[2..], b[2..]);
        assert a[2..][1..] == a[3..] && b[2..][1..] == b[3..];
        assert LexLess(a[3..], b[3..]);
        if a[3] == b[3] {
          assert a[3..][1..] == a[4..] && b[3..][1..] == b[4..];
          assert LexLess(a[4..], b[4..]);
          assert a[4..] == [a[4]] && b[4..] == [b[4]];
          var x, y := a[4..], b[4..];
          assert LexLess(x, y);
          assert x[1..] == [] && y[1..] == [];
          assert !LexLess(x[1..], y[1..]);
          assert x[0] != y[0];
          assert a[4] < b[4];
        } else {
          assert a[3] < b[3];
        }
      } else {
        assert a[1] < b[1];
      }
    } else {
      assert a[0] < b[0];
    }
  }

  /** For `HH:mm` strings, JavaScript's string `<` is chronological `<`. */
  lemma TimeOrderIsChronological(a: string, b: string)
    requires IsTime(a) && IsTime(b)
    ensures LexLess(a, b) <==> Minutes(a) < Minutes(b)
  {
    LexLessTotal(a, b);
    if LexLess(a, b) {
      TimeLessIsEarlier(a, b);
    } else if LexLess(b, a) {
      TimeLessIsEarlier(b, a);
    }
  }

  /** Keys other than `id` do not change whether the route parameter is accepted. */
  lemma IdParamIgnoresOtherKeys(params: map<string, string>, key: string, value: string)
    requires key != "id"
    ensures IdParamOk(params[key := value]) <==> IdParamOk(params)
  {
  }
}
