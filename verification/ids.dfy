/** The `PREFIX-NNN` identifiers the create forms give new cultivos
    (`CULT-`), cycles (`CICL-`) and insumos (`INS-`), and two small helpers
    of the modal forms: query-string parsing and the insumo total. */
module Ids {
  import opened Wrappers
  import Text
  import Numbers

  // ---------------------------------------------------------------------
  // Next id

  const CultivoPrefix: string := "CULT-"
  const CicloPrefix: string := "CICL-"
  const InsumoPrefix: string := "INS-"

  /** `String(n).padStart(3, '0')`. */
  function Pad3(n: nat): (r: string)
    ensures |r| >= 3 && Numbers.AllDigits(r)
    ensures Numbers.DigitsToNat(r) == n
  {
    PaddedValue(n);
    Numbers.PadStart(Numbers.NatToString(n), 3, '0')
  }

  /** Zero padding keeps the digits' value. */
  lemma PaddedValue(n: nat)
    ensures Numbers.AllDigits(Numbers.PadStart(Numbers.NatToString(n), 3, '0'))
    ensures Numbers.DigitsToNat(Numbers.PadStart(Numbers.NatToString(n), 3, '0')) == n
  {
    var s := Numbers.NatToString(n);
    var k := if |s| >= 3 then 0 else 3 - |s|;
    var z := Numbers.Repeat('0', k);
    assert Numbers.AllDigits(z + s) && Numbers.DigitsToNat(z + s) == n by {
      Numbers.NatStringRoundTrip(n);
      Numbers.LeadingZeros(k, s);
    }
    assert Numbers.PadStart(s, 3, '0') == z + s by {
      if k == 0 {
        assert z + s == s;
      }
    }
  }

  /** `id.split('-')[1]`, the text between the first and the second `-`;
      `None` (undefined) for an id without `-`. */
  function SecondPiece(id: string): (r: Option<string>)
    ensures r.Some? ==> '-' !in r.value
  {
    var parts := Text.Split(id, '-');
    if |parts| >= 2 then Some(parts[1]) else None
  }

  /** `parseInt(id.split('-')[1])`: `None` is `NaN`. The piece holds no
      minus sign, so a number read from it is never negative. */
  function IdNumber(id: string): (r: Option<nat>)
    ensures r.Some? ==> SecondPiece(id).Some? && Numbers.ParseInt(SecondPiece(id).value) == Some(r.value as int)
  {
    match SecondPiece(id)
    case None => None
    case Some(piece) =>
      match Numbers.ParseInt(piece)
      case None => None
      case Some(n) => Numbers.ParseIntUnsigned(piece); Some(n as nat)
  }

  /** The id column of the last listed row: `None` when the list is empty,
      the response has no `data`, or the row has no id (the forms then keep
      the default, through an explicit guard or the caught exception). */
  function LastId(ids: seq<Option<string>>): Option<string> {
    if ids == [] then None else ids[|ids| - 1]
  }

  /** The number part of the next id: `001`, unless the last listed id
      starts with the prefix; then one more than the number after its
      first `-`, padded to three digits, or `NaN` when no number follows. */
  function NextSuffix(ids: seq<Option<string>>, prefix: string): (r: string)
    ensures r == "NaN" <==> LastId(ids).Some? && Text.StartsWith(LastId(ids).value, prefix) && IdNumber(LastId(ids).value).None?
    ensures r != "NaN" ==> |r| >= 3 && Numbers.AllDigits(r)
    ensures r != "NaN" ==> (Numbers.DigitsToNat(r) ==
      if LastId(ids).Some? && Text.StartsWith(LastId(ids).value, prefix) then IdNumber(LastId(ids).value).value + 1 else 1)
  {
    var last := LastId(ids);
    if last.None? || !Text.StartsWith(last.value, prefix) then
      assert Numbers.DigitsToNat("001") == 1 by {
        assert "001"[..2] == "00" && "00"[..1] == "0" && "0"[..0] == [];
      }
      "001"
    else
      match IdNumber(last.value)
      case None => "NaN"
      case Some(n) => Pad3(n + 1)
  }

  /** The id a create form assigns: the prefix followed by the suffix. */
  function NewId(ids: seq<Option<string>>, prefix: string): string {
    prefix + NextSuffix(ids, prefix)
  }

  /** Edit mode keeps the record's id; create mode assigns a new one. */
  function FormId(editing: Option<string>, ids: seq<Option<string>>, prefix: string): (r: string)
    ensures editing.Some? ==> r == editing.value
    ensures editing.None? ==> r == NewId(ids, prefix)
  {
    if editing.Some? then editing.value else NewId(ids, prefix)
  }

  /** A word without `-` followed by one `-`, as the three prefixes are. */
  predicate WellFormedPrefix(prefix: string) {
    |prefix| >= 1 && prefix[|prefix| - 1] == '-' && '-' !in prefix[..|prefix| - 1]
  }

  lemma PrefixesWellFormed()
    ensures WellFormedPrefix(CultivoPrefix) && WellFormedPrefix(CicloPrefix) && WellFormedPrefix(InsumoPrefix)
  {
    assert CultivoPrefix[..4] == "CULT";
    assert CicloPrefix[..4] == "CICL";
    assert InsumoPrefix[..3] == "INS";
  }

  /** An id built from a prefix and a padded number reads back as that
      number. */
  lemma IdNumberOfPadded(prefix: string, n: nat)
    requires WellFormedPrefix(prefix)
    ensures IdNumber(prefix + Pad3(n)) == Some(n)
  {
    var word := prefix[..|prefix| - 1];
    var digits := Pad3(n);
    assert prefix + digits == word + ['-'] + digits;
    assert '-' !in digits by {
      forall i | 0 <= i < |digits| ensures digits[i] != '-' {
        assert Numbers.IsDigit(digits[i]);
      }
    }
    Text.SplitAround(word, digits, '-');
    Numbers.ParseIntOfDigits(digits);
  }

  /** Ids created one after the other from an empty list, each form reading
      the list the previous ones left. */
  function Created(prefix: string, k: nat): (ids: seq<Option<string>>)
    ensures |ids| == k
  {
    if k == 0 then [] else
      var before := Created(prefix, k - 1);
      before + [Some(NewId(before, prefix))]
  }

  /** Three zero-padded digits of one. */
  lemma Pad3One()
    ensures Pad3(1) == "001"
  {
    assert Numbers.NatToString(1) == "1";
    assert Numbers.Repeat('0', 2) == "00";
  }

  /** After an id with number `n`, the next one carries `n + 1`. */
  lemma NextAfter(ids: seq<Option<string>>, prefix: string, n: nat)
    requires WellFormedPrefix(prefix)
    requires LastId(ids) == Some(prefix + Pad3(n))
    ensures NewId(ids, prefix) == prefix + Pad3(n + 1)
  {
    var id := prefix + Pad3(n);
    assert Text.StartsWith(id, prefix) by {
      assert id[..|prefix|] == prefix;
    }
    IdNumberOfPadded(prefix, n);
    NextSuffixAfter(ids, prefix, id, n);
  }

  /** The suffix after a last id that starts with the prefix and carries
      number `n`. */
  lemma NextSuffixAfter(ids: seq<Option<string>>, prefix: string, id: string, n: nat)
    requires LastId(ids) == Some(id) && Text.StartsWith(id, prefix) && IdNumber(id) == Some(n)
    ensures NextSuffix(ids, prefix) == Pad3(n + 1)
  {
  }

  /** Consecutive creations count up from one: the `i`-th id created is
      the prefix followed by `i + 1` padded to three digits. */
  lemma {:induction false} CreatedCountsUp(prefix: string, k: nat)
    requires WellFormedPrefix(prefix)
    ensures forall i :: 0 <= i < k ==> Created(prefix, k)[i] == Some(prefix + Pad3(i + 1))
  {
    if k > 0 {
      CreatedCountsUp(prefix, k - 1);
      var before := Created(prefix, k - 1);
      var next := NewId(before, prefix);
      assert Created(prefix, k) == before + [Some(next)];
      assert next == prefix + Pad3(k) by {
        if k == 1 {
          Pad3One();
        } else {
          assert LastId(before) == Some(prefix + Pad3(k - 1));
          NextAfter(before, prefix, k - 1);
        }
      }
      forall i | 0 <= i < k
        ensures Created(prefix, k)[i] == Some(prefix + Pad3(i + 1))
      {
        if i < k - 1 {
          assert Created(prefix, k)[i] == before[i];
        }
      }
    }
  }

  // ---------------------------------------------------------------------
  // Query string

  /** `pair.split('=')[0]`, the key of one `&`-separated pair. */
  function PairKey(pair: string): string {
    Text.Split(pair, '=')[0]
  }

  /** `pair.split('=')[1] || ''`: the text after the first `=`, up to any
      second `=`, and empty when there is none. */
  function PairValue(pair: string): string {
    var kv := Text.Split(pair, '=');
    if |kv| >= 2 then kv[1] else ""
  }

  /** The parameters after reading `pairs` from left to right, each pair
      overwriting an earlier pair with the same key. */
  function Params(pairs: seq<string>): map<string, string> {
    if pairs == [] then map[]
    else
      var last := pairs[|pairs| - 1];
      Params(pairs[..|pairs| - 1])[PairKey(last) := PairValue(last)]
  }

  /** Some pair of `pairs` has key `k`. */
  predicate HasKey(pairs: seq<string>, k: string) {
    exists i :: 0 <= i < |pairs| && PairKey(pairs[i]) == k
  }

  /** Pair `i` is the last of `pairs` with key `k`. */
  predicate LastWithKey(pairs: seq<string>, k: string, i: int) {
    0 <= i < |pairs| && PairKey(pairs[i]) == k
    && forall j :: i < j < |pairs| ==> PairKey(pairs[j]) != k
  }

  /** The value of parameter `k` is that of the last pair naming it. */
  predicate LastValue(pairs: seq<string>, k: string, v: string) {
    exists i :: 0 <= i < |pairs| && LastWithKey(pairs, k, i) && v == PairValue(pairs[i])
  }

  /** Exactly the keys of the pairs become parameters. */
  lemma {:induction false} ParamsKeys(pairs: seq<string>)
    ensures forall k :: k in Params(pairs) <==> HasKey(pairs, k)
  {
    if pairs != [] {
      var init, last := pairs[..|pairs| - 1], pairs[|pairs| - 1];
      ParamsKeys(init);
      assert Params(pairs) == Params(init)[PairKey(last) := PairValue(last)];
      forall k ensures k in Params(pairs) <==> HasKey(pairs, k) {
        if HasKey(init, k) {
          var i :| 0 <= i < |init| && PairKey(init[i]) == k;
          assert PairKey(pairs[i]) == k;
        }
        if HasKey(pairs, k) {
          var i :| 0 <= i < |pairs| && PairKey(pairs[i]) == k;
          if i < |init| {
            assert PairKey(init[i]) == k;
          }
        }
      }
    }
  }

  /** Each parameter takes the value of the last pair that names it: a
      later pair overwrites an earlier one. */
  lemma {:induction false} ParamsLast(pairs: seq<string>)
    ensures forall k :: k in Params(pairs) ==> LastValue(pairs, k, Params(pairs)[k])
  {
    if pairs != [] {
      var init, last := pairs[..|pairs| - 1], pairs[|pairs| - 1];
      ParamsLast(init);
      assert Params(pairs) == Params(init)[PairKey(last) := PairValue(last)];
      forall k | k in Params(pairs)
        ensures LastValue(pairs, k, Params(pairs)[k])
      {
        if k == PairKey(last) {
          assert LastWithKey(pairs, k, |pairs| - 1);
        } else {
          assert k in Params(init);
          var i :| 0 <= i < |init| && LastWithKey(init, k, i) && Params(init)[k] == PairValue(init[i]);
          forall j | i < j < |pairs| ensures PairKey(pairs[j]) != k {
            if j < |init| {
              assert pairs[j] == init[j];
            }
          }
          assert LastWithKey(pairs, k, i);
        }
      }
    }
  }

  /** `getQueryParams` on the text after `?`: split on `&`, then each
      piece on `=`. */
  method GetQueryParams(query: string) returns (params: map<string, string>)
    ensures forall k :: k in params <==> HasKey(Text.Split(query, '&'), k)
    ensures forall k :: k in params ==> LastValue(Text.Split(query, '&'), k, params[k])
  {
    var pairs := Text.Split(query, '&');
    params := map[];
    var i := 0;
    while i < |pairs|
      invariant 0 <= i <= |pairs|
      invariant params == Params(pairs[..i])
    {
      assert pairs[..i + 1][..i] == pairs[..i];
      params := params[PairKey(pairs[i]) := PairValue(pairs[i])];
      i := i + 1;
    }
    assert pairs[..i] == pairs;
    ParamsKeys(pairs);
    ParamsLast(pairs);
  }

  /** A single `key=value` query, with no `&` and no other `=`, gives that
      one parameter; a bare `key` gives it an empty value. */
  lemma OnePair(key: string, value: string)
    requires '=' !in key && '=' !in value && '&' !in key && '&' !in value
    ensures Params(Text.Split(key + "=" + value, '&')) == map[key := value]
    ensures Params(Text.Split(key, '&')) == map[key := ""]
  {
    var q := key + "=" + value;
    assert q == key + ['='] + value;
    assert '&' !in q;
    Text.SplitNoSep(q, '&');
    Text.SplitAround(key, value, '=');
    assert Params([q]) == Params([])[PairKey(q) := PairValue(q)];
    Text.SplitNoSep(key, '&');
    Text.SplitNoSep(key, '=');
    assert Params([key]) == Params([])[PairKey(key) := PairValue(key)];
  }

  // ---------------------------------------------------------------------
  // Insumo total

  /** `(parseFloat(cantidad) || 0) * (parseFloat(valor_unitario) || 0)`,
      before rounding to two decimals. */
  function ValorTotal(cantidad: string, valorUnitario: string): (r: real)
    ensures Numbers.ParseFloat(cantidad).None? || Numbers.ParseFloat(valorUnitario).None? ==> r == 0.0
  {
    Product(Numbers.ParseFloat(cantidad), Numbers.ParseFloat(valorUnitario))
  }

  /** The product of two parsed numbers, a `NaN` factor counting as 0. */
  function Product(a: Option<real>, b: Option<real>): (r: real)
    ensures a.None? || b.None? ==> r == 0.0
    ensures a.Some? && b.Some? ==> r == a.value * b.value
  {
    Numbers.OrZero(a) * Numbers.OrZero(b)
  }

  /** Two numbers that parse multiply. */
  lemma ValorTotalOfNumbers(cantidad: string, valorUnitario: string, x: real, y: real)
    requires Numbers.ParseFloat(cantidad) == Some(x) && Numbers.ParseFloat(valorUnitario) == Some(y)
    ensures ValorTotal(cantidad, valorUnitario) == x * y
  {
    assert ValorTotal(cantidad, valorUnitario) == Product(Some(x), Some(y));
    ProductOfSome(x, y);
  }

  lemma ProductOfSome(x: real, y: real)
    ensures Product(Some(x), Some(y)) == x * y
  {
  }

  /** For whole numbers the total is the product. */
  lemma ValorTotalOfWhole(cantidad: nat, valorUnitario: nat)
    ensures ValorTotal(Numbers.NatToString(cantidad), Numbers.NatToString(valorUnitario))
            == cantidad as real * valorUnitario as real
  {
    Numbers.ParseFloatOfNat(cantidad);
    Numbers.ParseFloatOfNat(valorUnitario);
    ValorTotalOfNumbers(Numbers.NatToString(cantidad), Numbers.NatToString(valorUnitario),
                        cantidad as real, valorUnitario as real);
  }
}
