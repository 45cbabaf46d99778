/** Small pieces shared by the three modules: optional values, the outcome of a
    call that may throw, and the string operations the SQL builders use. */
module Common {

  datatype Option<+T> = None | Some(value: T)

  /** The result of an asynchronous call that either resolves with a value or
      rejects (throws) with a reason. */
  datatype Outcome<+T> = Done(value: T) | Fault(reason: string)

  /** JavaScript line terminators: `.` in a regular expression does not match them. */
  predicate IsLineTerminator(c: char)
  {
    c == '\n' || c == '\r' || c == '\U{2028}' || c == '\U{2029}'
  }

  /** `s.replace(/.$/, r)`: the last character of `s` is replaced by `r`; there is
      no match (and `s` is returned unchanged) when `s` is empty or ends with a
      line terminator. Without the `u` flag `.` matches one UTF-16 unit, so for a
      last character above U+FFFF JavaScript would replace only its low surrogate;
      this function agrees with JavaScript only on texts that do not end that way.
      None of the statement texts built here ends that way. */
  function ReplaceLastChar(s: string, r: string): string
  {
    if |s| > 0 && !IsLineTerminator(s[|s| - 1]) then s[..|s| - 1] + r else s
  }

  /** `s.length` in JavaScript: the number of UTF-16 code units, so a character
      above U+FFFF (a surrogate pair) counts twice. */
  function Utf16Length(s: string): nat
  {
    if s == [] then 0 else Utf16Length(s[..|s| - 1]) + (if s[|s| - 1] as int > 0xFFFF then 2 else 1)
  }

  /** The UTF-16 length lies between the number of characters and twice that, and
      equals the number of characters when none lies above U+FFFF and twice that
      when all do. */
  lemma {:induction false} Utf16LengthBounds(s: string)
    ensures |s| <= Utf16Length(s) <= 2 * |s|
    ensures (forall i :: 0 <= i < |s| ==> s[i] as int <= 0xFFFF) ==> Utf16Length(s) == |s|
    ensures (forall i :: 0 <= i < |s| ==> s[i] as int > 0xFFFF) ==> Utf16Length(s) == 2 * |s|
  {
    if s != [] {
      Utf16LengthBounds(s[..|s| - 1]);
    }
  }

  /** `n` copies of `s`, one after the other. */
  function Repeat(s: string, n: nat): string
  {
    if n == 0 then "" else Repeat(s, n - 1) + s
  }

  /** How many times the character `c` occurs in `s`. */
  function Count(s: string, c: char): nat
  {
    if s == [] then 0 else Count(s[..|s| - 1], c) + (if s[|s| - 1] == c then 1 else 0)
  }

  lemma {:induction false} CountAppend(a: string, b: string, c: char)
    ensures Count(a + b, c) == Count(a, c) + Count(b, c)
    decreases |b|
  {
    if b == [] {
      assert a + b == a;
    } else {
      var b' := b[..|b| - 1];
      assert (a + b)[..|a + b| - 1] == a + b';
      CountAppend(a, b', c);
    }
  }

  lemma {:induction false} RepeatLength(s: string, n: nat)
    ensures |Repeat(s, n)| == n * |s|
  {
    if n > 0 {
      RepeatLength(s, n - 1);
    }
  }

  lemma {:induction false} RepeatCount(s: string, n: nat, c: char)
    ensures Count(Repeat(s, n), c) == n * Count(s, c)
  {
    if n > 0 {
      RepeatCount(s, n - 1, c);
      CountAppend(Repeat(s, n - 1), s, c);
    }
  }

  lemma ConcatAssociates(a: string, b: string, c: string)
    ensures a + b + c == a + (b + c)
  {
  }

  lemma ConcatEmpty(a: string, b: string)
    ensures a + b == "" <==> a == "" && b == ""
  {
    assert |a + b| == |a| + |b|;
  }

  /** No element occurs twice. */
  predicate NoDuplicates<T(==)>(s: seq<T>)
  {
    forall i, j :: 0 <= i < j < |s| ==> s[i] != s[j]
  }

  /** A sequence has no repeated element exactly when its front has none and its
      last element is not in the front. */
  lemma NoDuplicatesSnoc<T>(s: seq<T>)
    requires s != []
    ensures NoDuplicates(s) <==> NoDuplicates(s[..|s| - 1]) && s[|s| - 1] !in s[..|s| - 1]
  {
    var front, last := s[..|s| - 1], s[|s| - 1];
    if NoDuplicates(front) && last !in front {
      forall i, j | 0 <= i < j < |s| ensures s[i] != s[j] {
        assert s[i] == front[i];
        if j < |s| - 1 {
          assert s[j] == front[j];
        }
      }
    }
    if NoDuplicates(s) {
      forall i, j | 0 <= i < j < |front| ensures front[i] != front[j] {
        assert front[i] == s[i] && front[j] == s[j];
      }
      forall j | 0 <= j < |front| ensures front[j] != last {
        assert front[j] == s[j];
      }
    }
  }
}
