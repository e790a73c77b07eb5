/** The text a block hash covers, and what equal hashes therefore say. */
module BlockHash {
  import opened Decimal

  /** The fields of a block that its hash binds, with missing ones as the hash reads them. */
  datatype Payload = Payload(
    number: int,
    parentHash: string,
    proposer: string,
    timestampMs: int,
    txs: seq<string>,
    baseFee: int,
    cumulativeWeight: int,
    blobGasUsed: int,
    excessBlobGas: int,
    parentBeaconBlockRoot: string)

  function Zeros(n: nat): string {
    if n == 0 then "" else Zeros(n - 1) + "0"
  }

  const ZERO_HASH: string := "0x" + Zeros(64)

  function Join(fields: seq<string>, c: char): string {
    if fields == [] then "" else if |fields| == 1 then fields[0] else fields[0] + [c] + Join(fields[1..], c)
  }

  function Fields(p: Payload): seq<string> {
    [Numeral(p.number), p.parentHash, p.proposer, Numeral(p.timestampMs), Join(p.txs, ','), Numeral(p.baseFee),
     Numeral(p.cumulativeWeight), Numeral(p.blobGasUsed), Numeral(p.excessBlobGas), p.parentBeaconBlockRoot]
  }

  function PreImage(p: Payload): string {
    Join(Fields(p), '|')
  }

  ghost predicate AllFree(fields: seq<string>, c: char) { forall i :: 0 <= i < |fields| ==> Free(fields[i], c) }

  /** No field holds the field separator. */
  ghost predicate BarFree(p: Payload) {
    Free(p.parentHash, '|') && Free(p.proposer, '|') && Free(p.parentBeaconBlockRoot, '|') && AllFree(p.txs, '|')
  }

  /** No field holds a separator, and the transactions are not a single empty string. */
  ghost predicate Clean(p: Payload) { BarFree(p) && AllFree(p.txs, ',') && p.txs != [""] }

  lemma {:induction false} JoinInjective(a: seq<string>, b: seq<string>, c: char)
    requires a != [] && b != [] && AllFree(a, c) && AllFree(b, c) && Join(a, c) == Join(b, c)
    ensures a == b
    decreases |a|
  {
    JoinHolds(a, c);
    JoinHolds(b, c);
    assert |a| == 1 <==> |b| == 1;
    if |a| == 1 {
      assert a == [a[0]] && b == [b[0]];
    } else {
      SplitUnique(a[0], Join(a[1..], c), b[0], Join(b[1..], c), c);
      JoinInjective(a[1..], b[1..], c);
      assert a == [a[0]] + a[1..] && b == [b[0]] + b[1..];
    }
  }

  /** Two or more fields leave a separator in the text. */
  lemma JoinHolds(fields: seq<string>, c: char)
    ensures |fields| > 1 ==> c in Join(fields, c)
  {
    if |fields| > 1 {
      assert (fields[0] + [c] + Join(fields[1..], c))[|fields[0]|] == c;
    }
  }

  lemma {:induction false} JoinFree(fields: seq<string>, c: char, d: char)
    requires AllFree(fields, d) && c != d
    ensures Free(Join(fields, c), d)
  {
    if |fields| > 1 {
      JoinFree(fields[1..], c, d);
    }
  }

  /** Only the empty list and the list of one empty string join to the empty text. */
  lemma JoinEmpty(fields: seq<string>, c: char)
    requires Join(fields, c) == ""
    ensures fields == [] || fields == [""]
  {
    JoinHolds(fields, c);
    assert fields == [] || fields == [fields[0]];
  }

  lemma FieldsFree(p: Payload)
    requires BarFree(p)
    ensures AllFree(Fields(p), '|')
  {
    NumeralFree(p.number, '|');
    NumeralFree(p.timestampMs, '|');
    NumeralFree(p.baseFee, '|');
    NumeralFree(p.cumulativeWeight, '|');
    NumeralFree(p.blobGasUsed, '|');
    NumeralFree(p.excessBlobGas, '|');
    JoinFree(p.txs, ',', '|');
  }

  lemma TxsInjective(a: seq<string>, b: seq<string>)
    requires AllFree(a, ',') && AllFree(b, ',') && a != [""] && b != [""] && Join(a, ',') == Join(b, ',')
    ensures a == b
  {
    if a == [] {
      JoinEmpty(b, ',');
    } else if b == [] {
      JoinEmpty(a, ',');
    } else {
      JoinInjective(a, b, ',');
    }
  }

  /** Without bars in the fields, texts are equal if and only if the joined transactions and all other fields are. */
  lemma SamePreImageExactly(p: Payload, q: Payload)
    requires BarFree(p) && BarFree(q)
    ensures PreImage(p) == PreImage(q) <==> p.(txs := []) == q.(txs := []) && Join(p.txs, ',') == Join(q.txs, ',')
  {
    if PreImage(p) == PreImage(q) {
      FieldsFree(p);
      FieldsFree(q);
      JoinInjective(Fields(p), Fields(q), '|');
      SameFields(p, q);
    }
  }

  lemma SameFields(p: Payload, q: Payload)
    requires Fields(p) == Fields(q)
    ensures p.(txs := []) == q.(txs := []) && Join(p.txs, ',') == Join(q.txs, ',')
  {
    var a, b := Fields(p), Fields(q);
    assert forall i :: 0 <= i < 10 ==> a[i] == b[i];
    assert a[0] == Numeral(p.number) && a[3] == Numeral(p.timestampMs) && a[4] == Join(p.txs, ',')
           && a[5] == Numeral(p.baseFee);
    NumeralInjective(p.number, q.number);
    NumeralInjective(p.timestampMs, q.timestampMs);
    NumeralInjective(p.baseFee, q.baseFee);
    NumeralInjective(p.cumulativeWeight, q.cumulativeWeight);
    NumeralInjective(p.blobGasUsed, q.blobGasUsed);
    NumeralInjective(p.excessBlobGas, q.excessBlobGas);
  }

  /** The pre-image text of clean fields determines every hash-bound field. */
  lemma PreImageInjective(p: Payload, q: Payload)
    requires Clean(p) && Clean(q) && PreImage(p) == PreImage(q)
    ensures p == q
  {
    SamePreImageExactly(p, q);
    TxsInjective(p.txs, q.txs);
  }

  /**
   * Without clean fields it does not: a separator can move between
   * neighbours, and no transaction reads like an empty one.
   */
  lemma UncleanCollisions(p: Payload, x: string, y: string, z: string)
    ensures PreImage(p.(parentHash := x + "|" + y, proposer := z))
            == PreImage(p.(parentHash := x, proposer := y + "|" + z))
    ensures PreImage(p.(txs := [])) == PreImage(p.(txs := [""]))
  {
    MovedSeparator(Numeral(p.number), x, y, z, Fields(p)[3..]);
    FirstFields(p, x + "|" + y, z);
    FirstFields(p, x, y + "|" + z);
    assert Fields(p.(txs := [])) == Fields(p.(txs := [""]));
  }

  lemma FirstFields(p: Payload, parentHash: string, proposer: string)
    ensures Fields(p.(parentHash := parentHash, proposer := proposer))
            == [Numeral(p.number), parentHash, proposer] + Fields(p)[3..]
  {
  }

  lemma MovedSeparator(n: string, x: string, y: string, z: string, rest: seq<string>)
    requires rest != []
    ensures Join([n, x + "|" + y, z] + rest, '|') == Join([n, x, y + "|" + z] + rest, '|')
  {
    var a, b := [n, x + "|" + y, z] + rest, [n, x, y + "|" + z] + rest;
    var r := Join(rest, '|');
    JoinThree(n, x + "|" + y, z, rest);
    JoinThree(n, x, y + "|" + z, rest);
    assert x + "|" + y + ['|'] + (z + ['|'] + r) == x + ['|'] + (y + "|" + z + ['|'] + r);
  }

  lemma JoinThree(n: string, x: string, z: string, rest: seq<string>)
    requires rest != []
    ensures Join([n, x, z] + rest, '|') == n + ['|'] + (x + ['|'] + (z + ['|'] + Join(rest, '|')))
  {
    assert ([n, x, z] + rest)[1..] == [x, z] + rest;
    assert ([x, z] + rest)[1..] == [z] + rest;
    assert ([z] + rest)[1..] == rest;
    assert Join([z] + rest, '|') == z + ['|'] + Join(rest, '|');
    assert Join([x, z] + rest, '|') == x + ['|'] + Join([z] + rest, '|');
  }

  /** Joining is joining the parts, with the separator in between. */
  lemma {:induction false} JoinConcat(a: seq<string>, b: seq<string>, c: char)
    requires a != [] && b != []
    ensures Join(a + b, c) == Join(a, c) + [c] + Join(b, c)
  {
    if |a| == 1 {
      assert (a + b)[1..] == b;
    } else {
      assert (a + b)[1..] == a[1..] + b;
      JoinConcat(a[1..], b, c);
    }
  }

  lemma JoinFive(a: string, b: string, c: string, d: string, e: string)
    ensures Join([a, b, c, d, e], '|') == a + "|" + b + "|" + c + "|" + d + "|" + e
  {
    JoinConcat([a, b, c, d], [e], '|');
    JoinConcat([a, b, c], [d], '|');
    JoinConcat([a, b], [c], '|');
    JoinConcat([a], [b], '|');
    assert [a, b, c, d, e] == [a, b, c, d] + [e] && [a, b, c, d] == [a, b, c] + [d];
    assert [a, b, c] == [a, b] + [c] && [a, b] == [a] + [b];
  }

  /** What is hashed: the fields in this order, with bars between them and commas between transactions. */
  lemma PreImageText(p: Payload)
    ensures var first := Numeral(p.number) + "|" + p.parentHash + "|" + p.proposer + "|" + Numeral(p.timestampMs) + "|"
                         + Join(p.txs, ',');
            var second := Numeral(p.baseFee) + "|" + Numeral(p.cumulativeWeight) + "|" + Numeral(p.blobGasUsed) + "|"
                          + Numeral(p.excessBlobGas) + "|" + p.parentBeaconBlockRoot;
            PreImage(p) == first + "|" + second
  {
    var first := [Numeral(p.number), p.parentHash, p.proposer, Numeral(p.timestampMs), Join(p.txs, ',')];
    var second := [Numeral(p.baseFee), Numeral(p.cumulativeWeight), Numeral(p.blobGasUsed), Numeral(p.excessBlobGas),
                   p.parentBeaconBlockRoot];
    JoinFive(first[0], first[1], first[2], first[3], first[4]);
    JoinFive(second[0], second[1], second[2], second[3], second[4]);
    assert Fields(p) == first + second;
    JoinConcat(first, second, '|');
  }

  lemma {:induction false} ZerosLength(n: nat)
    ensures |Zeros(n)| == n && forall i :: 0 <= i < n ==> Zeros(n)[i] == '0'
  {
    if n > 0 { ZerosLength(n - 1); }
  }

  /** The parent of the first block: 32 zero bytes in hexadecimal. */
  lemma ZeroHashText()
    ensures |ZERO_HASH| == 66 && ZERO_HASH[..2] == "0x" && forall i :: 2 <= i < 66 ==> ZERO_HASH[i] == '0'
  {
    ZerosLength(64);
  }
}
