/** Composite keys as attribute lists, and why no two kinds of key ever meet. */
module LedgerKeys {

  type Key = seq<string>

  const PRIVKEY := "privkey"

  function Digit(d: int): char
    requires 0 <= d < 10
  {
    ('0' as int + d) as char
  }

  function Digits(n: nat): (s: string)
    ensures |s| >= 1 && s[0] != '-'
    ensures n >= 10 ==> |s| >= 2
  {
    if n < 10 then [Digit(n)] else Digits(n / 10) + [Digit(n % 10)]
  }

  /** `strconv.Itoa`. */
  function Itoa(n: int): (s: string)
    ensures |s| >= 1
  {
    if n < 0 then "-" + Digits(-n) else Digits(n)
  }

  lemma {:induction false} DigitsInjective(m: nat, n: nat)
    requires Digits(m) == Digits(n)
    ensures m == n
  {
    var s, t := Digits(m), Digits(n);
    if m >= 10 && n >= 10 {
      assert Digits(m / 10) == s[..|s| - 1] && Digits(n / 10) == t[..|t| - 1];
      assert Digit(m % 10) == s[|s| - 1] && Digit(n % 10) == t[|t| - 1];
      DigitsInjective(m / 10, n / 10);
    } else {
      assert s[0] == t[0];
    }
  }

  lemma ItoaInjective(m: int, n: int)
    requires Itoa(m) == Itoa(n)
    ensures m == n
  {
    if m < 0 && n < 0 {
      assert Digits(-m) == Itoa(m)[1..] && Digits(-n) == Itoa(n)[1..];
      DigitsInjective(-m, -n);
    } else if m >= 0 && n >= 0 {
      DigitsInjective(m, n);
    }
  }

  /** The number a decimal text stands for. */
  function Read(s: string): int {
    if s != "" && s[0] == '-' then -ReadDigits(s[1..]) else ReadDigits(s)
  }

  function ReadDigits(s: string): int {
    if s == "" then 0 else 10 * ReadDigits(s[..|s| - 1]) + (s[|s| - 1] as int - '0' as int)
  }

  lemma {:induction false} DigitsRead(n: nat)
    ensures ReadDigits(Digits(n)) == n
    ensures forall i :: 0 <= i < |Digits(n)| ==> '0' <= Digits(n)[i] <= '9'
    ensures n > 0 ==> Digits(n)[0] != '0'
  {
    if n >= 10 {
      DigitsRead(n / 10);
      assert Digits(n)[..|Digits(n)| - 1] == Digits(n / 10);
    } else {
      assert [Digit(n)][..0] == "";
    }
  }

  /** A slot's decimal text reads back, and has no leading zero. */
  lemma ItoaReads(n: int)
    ensures Read(Itoa(n)) == n
    ensures n != 0 ==> Itoa(n)[if n < 0 then 1 else 0] != '0'
  {
    if n < 0 {
      DigitsRead(-n);
      assert Itoa(n)[1..] == Digits(-n);
    } else {
      DigitsRead(n);
    }
  }

  /** Key of everything of one kind in a slot. */
  function SlotKey(slot: int, action: string): Key {
    [Itoa(slot), "-", action]
  }

  /** Key of one transaction's entry. */
  function TxKey(slot: int, action: string, tx: string): Key {
    [Itoa(slot), "-", action, "-", tx]
  }

  /** Where the private key for the bid (or bid map) at `k` goes. */
  function PrivKeyOf(k: Key): Key {
    k + ["-", PRIVKEY]
  }

  predicate HoldsPrivKey(k: Key) {
    k != [] && k[|k| - 1] == PRIVKEY
  }

  /** The key `bid` and `postKey` read to see whether a slot is over. */
  function GuardKey(slot: int): Key {
    SlotKey(slot, "markEnd")
  }

  /** The key `markEnd` writes.  As written it carries the transaction ID; `agreed` selects the key
      that the guard reads. */
  function MarkKey(agreed: bool, slot: int, tx: string): Key {
    if agreed then GuardKey(slot) else TxKey(slot, "markEnd", tx)
  }

  /** The keys of a slot, attribute by attribute. */
  lemma KeyShapes(tx: string)
    ensures GuardKey(12) == ["12", "-", "markEnd"] && MarkKey(true, 12, tx) == ["12", "-", "markEnd"]
    ensures MarkKey(false, 12, tx) == ["12", "-", "markEnd", "-", tx]
    ensures SlotKey(12, "buy") == ["12", "-", "buy"] && TxKey(-1, "sell", tx) == ["-1", "-", "sell", "-", tx]
    ensures PrivKeyOf(SlotKey(12, "buy")) == ["12", "-", "buy", "-", "privkey"]
  {
    assert Digits(1) == "1";
    assert Digits(12) == "12";
    assert Itoa(-1) == "-1";
  }

  lemma KeysApart(s: int, a: string, t: int, b: string)
    ensures SlotKey(s, a) == SlotKey(t, b) <==> s == t && a == b
    ensures SlotKey(s, a) <= SlotKey(t, b) <==> s == t && a == b
  {
    if Itoa(s) == Itoa(t) { ItoaInjective(s, t); }
    assert SlotKey(s, a)[2] == a && SlotKey(t, b)[2] == b && SlotKey(s, a)[0] == Itoa(s) && SlotKey(t, b)[0] == Itoa(t);
  }

  lemma TxKeysApart(s: int, a: string, x: string, t: int, b: string, y: string)
    ensures TxKey(s, a, x) == TxKey(t, b, y) <==> s == t && a == b && x == y
    ensures SlotKey(s, a) <= TxKey(t, b, y) <==> s == t && a == b
    ensures SlotKey(s, a) != TxKey(t, b, y)
  {
    var k, l := TxKey(s, a, x), TxKey(t, b, y);
    if Itoa(s) == Itoa(t) { ItoaInjective(s, t); }
    assert k[0] == Itoa(s) && l[0] == Itoa(t) && k[2] == a && l[2] == b && k[4] == x && l[4] == y;
    assert SlotKey(s, a)[0] == Itoa(s) && SlotKey(s, a)[2] == a;
  }

  /** Private-key locations are told apart by the bids they belong to, and are never guard or mark
      keys, whatever attributes a caller supplies. */
  lemma PrivKeysApart(k: Key, l: Key, slot: int, tx: string)
    ensures PrivKeyOf(k) == PrivKeyOf(l) <==> k == l
    ensures HoldsPrivKey(PrivKeyOf(k))
    ensures PrivKeyOf(k) != GuardKey(slot)
    ensures tx != PRIVKEY ==> PrivKeyOf(k) != TxKey(slot, "markEnd", tx)
  {
    if PrivKeyOf(k) == PrivKeyOf(l) {
      assert k == PrivKeyOf(k)[..|k|] && l == PrivKeyOf(l)[..|l|];
    }
    var p := PrivKeyOf(k);
    assert p[|p| - 1] == PRIVKEY && PRIVKEY[0] == 'p';
    assert GuardKey(slot)[2] == "markEnd" && "markEnd"[0] == 'm';
    assert TxKey(slot, "markEnd", tx)[4] == tx;
  }
}
