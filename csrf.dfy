/** The CSRF intents the controller checks tokens against: the action name followed by
    the task id written in decimal, as string concatenation of an integer produces it.
    Whether a token is valid for an intent is decided by the token manager, which is
    an input to the actions (a function from intent and token to a verdict). */
module CsrfIntents {
  import opened TaskModel

  function DigitChar(d: nat): (c: char)
    requires d < 10
    ensures '0' <= c <= '9'
  {
    ('0' as int + d) as char
  }

  function DigitValue(c: char): int {
    c as int - '0' as int
  }

  /** The decimal rendering of an id: no sign, no leading zero. */
  function IdString(n: nat): (r: string)
    ensures |r| >= 1
    ensures forall i :: 0 <= i < |r| ==> '0' <= r[i] <= '9'
    ensures |r| > 1 ==> r[0] != '0'
  {
    if n < 10 then [DigitChar(n)] else IdString(n / 10) + [DigitChar(n % 10)]
  }

  /** The value of a string of decimal digits, most significant first. */
  function DecimalValue(s: string): int {
    if s == [] then 0 else DecimalValue(s[..|s| - 1]) * 10 + DigitValue(s[|s| - 1])
  }

  /** Reading the decimal rendering back gives the id. */
  lemma {:induction false} DecimalRoundTrip(n: nat)
    ensures DecimalValue(IdString(n)) == n
  {
    if n < 10 {
      assert IdString(n)[..0] == [];
    } else {
      var s := IdString(n);
      assert s[..|s| - 1] == IdString(n / 10);
      DecimalRoundTrip(n / 10);
    }
  }

  /** Distinct ids have distinct renderings. */
  lemma IdStringInjective(a: nat, b: nat)
    ensures IdString(a) == IdString(b) <==> a == b
  {
    DecimalRoundTrip(a);
    DecimalRoundTrip(b);
  }

  /** The intent a delete token must have been issued for. */
  function DeleteIntent(id: TaskId): string {
    "delete" + IdString(id)
  }

  /** The intent a toggle token must have been issued for. */
  function ToggleIntent(id: TaskId): string {
    "toggle" + IdString(id)
  }

  /** Intents are per action and per task: a delete intent is never a toggle intent,
      and two intents of the same action are equal only for the same task. */
  lemma IntentsPerActionAndTask(a: TaskId, b: TaskId)
    ensures DeleteIntent(a) != ToggleIntent(b)
    ensures DeleteIntent(a) == DeleteIntent(b) <==> a == b
    ensures ToggleIntent(a) == ToggleIntent(b) <==> a == b
  {
    assert DeleteIntent(a)[0] != ToggleIntent(b)[0];
    IdStringInjective(a, b);
    if DeleteIntent(a) == DeleteIntent(b) {
      assert IdString(a) == DeleteIntent(a)[6..];
    }
    if ToggleIntent(a) == ToggleIntent(b) {
      assert IdString(a) == ToggleIntent(a)[6..];
    }
  }
}
