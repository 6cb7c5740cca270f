// Finding a verification code in a message
// (crates/kaluta-core/src/agent_mailbox.rs).
module FindCode {
  import opened Prelude

  predicate IsDigit(b: byte) {
    48 <= b <= 57
  }

  predicate IsAlphanumeric(b: byte) {
    IsDigit(b) || 65 <= b <= 90 || 97 <= b <= 122
  }

  predicate Digits(text: seq<byte>, from: nat, to: nat)
    requires from <= to <= |text|
  {
    forall i :: from <= i < to ==> IsDigit(text[i])
  }

  /** Six digits on their own start at `at`. */
  predicate CodeAt(text: seq<byte>, at: nat) {
    && at + 6 <= |text|
    && Digits(text, at, at + 6)
    && (at == 0 || !IsAlphanumeric(text[at - 1]))
    && (at + 6 == |text| || !IsAlphanumeric(text[at + 6]))
  }

  /** A run of digits, whole, that is not six on their own holds no code, anywhere in it. */
  lemma NoCodeInRun(text: seq<byte>, start: nat, end: nat)
    requires start < end <= |text| && Digits(text, start, end) && !CodeAt(text, start)
    requires end == |text| || !IsDigit(text[end])
    ensures forall t :: start <= t < end ==> !CodeAt(text, t)
  {
    forall t | start <= t < end
      ensures !CodeAt(text, t)
    {
      if t > start {
        assert IsAlphanumeric(text[t - 1]);
      }
    }
  }

  /** The leftmost code, or nothing exactly when there is none. */
  method FindCode(text: seq<byte>) returns (code: Option<seq<byte>>)
    ensures code.None? <==> forall at: nat :: !CodeAt(text, at)
    ensures code.Some? ==> exists at: nat ::
              CodeAt(text, at) && code.value == text[at..at + 6] && forall t: nat :: t < at ==> !CodeAt(text, t)
  {
    var i := 0;
    while i < |text|
      invariant i <= |text|
      invariant 0 < i < |text| && IsDigit(text[i - 1]) ==> !IsDigit(text[i])
      invariant forall t: nat :: t < i ==> !CodeAt(text, t)
    {
      if IsDigit(text[i]) {
        var start := i;
        while i < |text| && IsDigit(text[i])
          invariant start <= i <= |text| && Digits(text, start, i)
        {
          i := i + 1;
        }
        var aloneBefore := start == 0 || !IsAlphanumeric(text[start - 1]);
        var aloneAfter := i == |text| || !IsAlphanumeric(text[i]);
        if i - start == 6 && aloneBefore && aloneAfter {
          assert CodeAt(text, start) && i == start + 6;
          return Some(text[start..i]);
        }
        NoCodeInRun(text, start, i);
      } else {
        i := i + 1;
      }
    }
    return None;
  }
}
