/** A codec as the ledger's theorems ask for: their hypotheses can be met. */
module LedgerCodec {
  import opened AuctionCurves
  import opened LedgerKeys
  import opened LedgerModel
  import opened Options

  // ----- prefix-free encodings -----

  /** A number, in unary. */
  ghost function OfNat(n: nat): Bytes {
    if n == 0 then [0] else [1] + OfNat(n - 1)
  }

  lemma {:induction false} NatPrefixFree(m: nat, n: nat, x: Bytes, y: Bytes)
    requires OfNat(m) + x == OfNat(n) + y
    ensures m == n && x == y
  {
    assert (OfNat(m) + x)[0] == OfNat(m)[0] && (OfNat(n) + y)[0] == OfNat(n)[0];
    if m == 0 {
      assert (OfNat(m) + x)[1..] == x && (OfNat(n) + y)[1..] == y;
    } else {
      assert (OfNat(m) + x)[1..] == OfNat(m - 1) + x && (OfNat(n) + y)[1..] == OfNat(n - 1) + y;
      NatPrefixFree(m - 1, n - 1, x, y);
    }
  }

  ghost function OfText(s: string): Bytes {
    if s == [] then [0] else [1] + OfNat(s[0] as nat) + OfText(s[1..])
  }

  lemma {:induction false} TextPrefixFree(s: string, t: string, x: Bytes, y: Bytes)
    requires OfText(s) + x == OfText(t) + y
    ensures s == t && x == y
  {
    assert (OfText(s) + x)[0] == OfText(s)[0] && (OfText(t) + y)[0] == OfText(t)[0];
    if s == [] {
      assert (OfText(s) + x)[1..] == x && (OfText(t) + y)[1..] == y;
    } else {
      assert (OfText(s) + x)[1..] == OfNat(s[0] as nat) + (OfText(s[1..]) + x);
      assert (OfText(t) + y)[1..] == OfNat(t[0] as nat) + (OfText(t[1..]) + y);
      NatPrefixFree(s[0] as nat, t[0] as nat, OfText(s[1..]) + x, OfText(t[1..]) + y);
      TextPrefixFree(s[1..], t[1..], x, y);
      assert s == [s[0]] + s[1..] && t == [t[0]] + t[1..];
    }
  }

  ghost function OfBytes(b: Bytes): Bytes {
    OfNat(|b|) + b
  }

  lemma BytesPrefixFree(b: Bytes, c: Bytes, x: Bytes, y: Bytes)
    requires OfBytes(b) + x == OfBytes(c) + y
    ensures b == c && x == y
  {
    assert OfBytes(b) + x == OfNat(|b|) + (b + x) && OfBytes(c) + y == OfNat(|c|) + (c + y);
    NatPrefixFree(|b|, |c|, b + x, c + y);
    assert b == (b + x)[..|b|] && x == (b + x)[|b|..];
    assert c == (c + y)[..|c|] && y == (c + y)[|c|..];
  }

  ghost function OfKey(k: Key): Bytes {
    if k == [] then [0] else [1] + OfText(k[0]) + OfKey(k[1..])
  }

  lemma {:induction false} KeyPrefixFree(k: Key, l: Key, x: Bytes, y: Bytes)
    requires OfKey(k) + x == OfKey(l) + y
    ensures k == l && x == y
  {
    assert (OfKey(k) + x)[0] == OfKey(k)[0] && (OfKey(l) + y)[0] == OfKey(l)[0];
    if k == [] {
      assert (OfKey(k) + x)[1..] == x && (OfKey(l) + y)[1..] == y;
    } else {
      assert (OfKey(k) + x)[1..] == OfText(k[0]) + (OfKey(k[1..]) + x);
      assert (OfKey(l) + y)[1..] == OfText(l[0]) + (OfKey(l[1..]) + y);
      TextPrefixFree(k[0], l[0], OfKey(k[1..]) + x, OfKey(l[1..]) + y);
      KeyPrefixFree(k[1..], l[1..], x, y);
      assert k == [k[0]] + k[1..] && l == [l[0]] + l[1..];
    }
  }

  // ----- what the contract encodes -----

  /** A map, entry by entry in some order. */
  ghost function OfTable(t: Table): Bytes
    decreases |t|
  {
    if t == map[] then [0]
    else
      var e :| e in t;
      [1] + OfText(e) + OfBytes(t[e]) + OfTable(t - {e})
  }

  lemma TableEntry(t: Table) returns (e: string)
    requires t != map[]
    ensures e in t && OfTable(t) == [1] + (OfText(e) + (OfBytes(t[e]) + OfTable(t - {e})))
  {
    e :| e in t && OfTable(t) == [1] + OfText(e) + OfBytes(t[e]) + OfTable(t - {e});
  }

  lemma SameEntry(t: Table, u: Table, e: string)
    requires e in t && e in u && t[e] == u[e] && t - {e} == u - {e}
    ensures t == u
  {
    assert t == (t - {e})[e := t[e]] && u == (u - {e})[e := u[e]];
  }

  lemma {:induction false} TableInjective(t: Table, u: Table)
    requires OfTable(t) == OfTable(u)
    ensures t == u
    decreases |t|
  {
    if t == map[] {
      if u != map[] { var f := TableEntry(u); }
    } else if u == map[] {
      var e := TableEntry(t);
    } else {
      var e := TableEntry(t);
      var f := TableEntry(u);
      var x, y := OfBytes(t[e]) + OfTable(t - {e}), OfBytes(u[f]) + OfTable(u - {f});
      assert OfTable(t)[1..] == OfText(e) + x && OfTable(u)[1..] == OfText(f) + y;
      TextPrefixFree(e, f, x, y);
      BytesPrefixFree(t[e], u[f], OfTable(t - {e}), OfTable(u - {f}));
      TableInjective(t - {e}, u - {e});
      SameEntry(t, u, e);
    }
  }

  ghost function OfInput(i: PostKeyInput): Bytes {
    OfKey(i.readKey) + (OfBytes(i.privKey) + OfText(i.bidEvent))
  }

  lemma InputInjective(i: PostKeyInput, j: PostKeyInput)
    requires OfInput(i) == OfInput(j)
    ensures i == j
  {
    KeyPrefixFree(i.readKey, j.readKey, OfBytes(i.privKey) + OfText(i.bidEvent),
                  OfBytes(j.privKey) + OfText(j.bidEvent));
    BytesPrefixFree(i.privKey, j.privKey, OfText(i.bidEvent), OfText(j.bidEvent));
    assert OfText(i.bidEvent) + [] == OfText(j.bidEvent) + [];
    TextPrefixFree(i.bidEvent, j.bidEvent, [], []);
  }

  ghost function OfOutput(o: PostKeyOutput): Bytes {
    OfKey(o.writeKey) + o.privKey
  }

  lemma OutputInjective(o: PostKeyOutput, q: PostKeyOutput)
    requires OfOutput(o) == OfOutput(q)
    ensures o == q
  {
    KeyPrefixFree(o.writeKey, q.writeKey, o.privKey, q.privKey);
  }

  /** A bid, by its place in a list. */
  ghost function OfBid(bids: seq<Bid>, b: Bid): Bytes {
    if b in bids then
      var i: nat :| i < |bids| && bids[i] == b;
      OfNat(i)
    else []
  }

  lemma BidInjective(bids: seq<Bid>, b: Bid, c: Bid)
    requires b in bids && c in bids && OfBid(bids, b) == OfBid(bids, c)
    ensures b == c
  {
    var i: nat :| i < |bids| && bids[i] == b && OfBid(bids, b) == OfNat(i);
    var j: nat :| j < |bids| && bids[j] == c && OfBid(bids, c) == OfNat(j);
    assert OfNat(i) + [] == OfNat(j) + [];
    NatPrefixFree(i, j, [], []);
  }

  // ----- decoding -----

  ghost function ToTable(b: Bytes): Option<Table> {
    if exists t: Table :: OfTable(t) == b then
      var t: Table :| OfTable(t) == b; Some(t)
    else None
  }

  ghost function ToInput(b: Bytes): Option<PostKeyInput> {
    if exists i: PostKeyInput :: OfInput(i) == b then
      var i: PostKeyInput :| OfInput(i) == b; Some(i)
    else None
  }

  ghost function ToOutput(b: Bytes): Option<PostKeyOutput> {
    if exists o: PostKeyOutput :: OfOutput(o) == b then
      var o: PostKeyOutput :| OfOutput(o) == b; Some(o)
    else None
  }

  ghost function ToBid(bids: seq<Bid>, b: Bytes): Option<Bid> {
    if exists x: Bid :: x in bids && OfBid(bids, x) == b then
      var x: Bid :| x in bids && OfBid(bids, x) == b; Some(x)
    else None
  }

  /** A lawful codec exists, and for any finite set of bids one that also brings each of them back, and
      opens what is sealed with a given key. */
  lemma LawfulCodecExists(bids: seq<Bid>, key: PrivKey) returns (c: Codec)
    ensures Lawful(c)
    ensures forall b :: b in bids ==> c.decodeBid(c.encodeBid(b)) == Some(b)
    ensures forall pem, sealed :: c.loadKey(pem) == Some(key) && c.decrypt(sealed, key) == Some(sealed)
  {
    c := Codec(t => OfTable(t), b => ToTable(b), i => OfInput(i), b => ToInput(b), o => OfOutput(o), b => ToOutput(b),
               out => [], b => Some(b), b => OfBid(bids, b), b => ToBid(bids, b), pem => Some(key), (b, k) => Some(b));
    forall t ensures ToTable(OfTable(t)) == Some(t) {
      TableInjective(t, ToTable(OfTable(t)).value);
    }
    forall i ensures ToInput(OfInput(i)) == Some(i) {
      InputInjective(i, ToInput(OfInput(i)).value);
    }
    forall o ensures ToOutput(OfOutput(o)) == Some(o) {
      OutputInjective(o, ToOutput(OfOutput(o)).value);
    }
    forall b | b in bids ensures ToBid(bids, OfBid(bids, b)) == Some(b) {
      BidInjective(bids, b, ToBid(bids, OfBid(bids, b)).value);
    }
  }
}
