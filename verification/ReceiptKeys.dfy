/** The primary key of a receipt, and the event id of a mail message. */
module ReceiptKeys {
  datatype Key = Key(project: string, recipient: string, id: int)

  const CONTROL_PROJECT := "/b0/control"

  const MAIL_PREFIX := "mail:"

  function Digits(n: nat): (s: string)
    ensures s != ""
  {
    if n < 10 then [['0', '1', '2', '3', '4', '5', '6', '7', '8', '9'][n]] else Digits(n / 10) + Digits(n % 10)
  }

  /** `str(id)` */
  function Decimal(id: int): string {
    if id < 0 then "-" + Digits(-id) else Digits(id)
  }

  /** The receipt row that carries the markers of a control event. */
  function ControlKey(id: string): Key {
    Key(CONTROL_PROJECT, id, 0)
  }

  function MailId(id: nat): string {
    MAIL_PREFIX + Digits(id)
  }

  lemma LastDigit(n: nat)
    ensures Digits(n)[|Digits(n)| - 1] == Digits(n % 10)[0]
    ensures n >= 10 ==> |Digits(n)| > 1 && Digits(n)[..|Digits(n)| - 1] == Digits(n / 10)
  {
  }

  /** The number that a row of digits is read as. */
  function Value(s: string): int {
    if s == "" then 0 else 10 * Value(s[..|s| - 1]) + (s[|s| - 1] as int - '0' as int)
  }

  lemma {:induction false} DigitsRead(n: nat)
    ensures Value(Digits(n)) == n && forall c | c in Digits(n) :: '0' <= c <= '9'
  {
    if n < 10 {
      assert Digits(n)[..0] == "";
    } else {
      DigitsRead(n / 10);
      DigitsRead(n % 10);
      LastDigit(n);
      assert Digits(n % 10)[..0] == "";
    }
  }

  lemma {:induction false} DigitsInjective(a: nat, b: nat)
    requires Digits(a) == Digits(b)
    ensures a == b
  {
    LastDigit(a);
    LastDigit(b);
    if a >= 10 && b >= 10 { DigitsInjective(a / 10, b / 10); }
  }

  /** Different messages have different event ids. */
  lemma MailIdsDiffer(a: nat, b: nat)
    requires MailId(a) == MailId(b)
    ensures a == b
  {
    assert MailId(a)[|MAIL_PREFIX|..] == Digits(a) && MailId(b)[|MAIL_PREFIX|..] == Digits(b);
    DigitsInjective(a, b);
  }
}
