/** The assumptions about keys and registries can be met: a source that counts
    through all byte strings of 32 bytes, and a registry text of 33 bytes. */
module KeyInstances {
  import opened Wrappers
  import opened DurableFiles
  import opened PrivateKeys
  import opened KeyRotation
  import RetentionProvisioning

  function Power(width: nat): (p: nat)
    ensures p > 0
  {
    if width == 0 then 1 else 256 * Power(width - 1)
  }

  lemma {:induction false} PowerIsLarge(width: nat)
    ensures Power(width) >= 1 + 255 * width
  {
    if width > 0 {
      PowerIsLarge(width - 1);
    }
  }

  /** The last `width` digits of a number, base 256. */
  function Numeral(n: nat, width: nat): (digits: Bytes)
    ensures |digits| == width
  {
    if width == 0 then [] else Numeral(n / 256, width - 1) + [(n % 256) as Byte]
  }

  lemma {:induction false} NumeralsDiffer(m: nat, n: nat, width: nat)
    requires m < Power(width) && n < Power(width) && m != n
    ensures Numeral(m, width) != Numeral(n, width)
  {
    if m / 256 != n / 256 {
      NumeralsDiffer(m / 256, n / 256, width - 1);
      assert Numeral(m, width)[..width - 1] == Numeral(m / 256, width - 1);
      assert Numeral(n, width)[..width - 1] == Numeral(n / 256, width - 1);
    } else {
      assert Numeral(m, width)[width - 1] != Numeral(n, width)[width - 1];
    }
  }

  /** The keys from the `start`-th on; those before it may be forbidden. */
  function Counting(start: nat): Supply
    requires start <= Power(KEY_BYTES)
  {
    Supply((i: nat) => Numeral(start + i, KEY_BYTES), Power(KEY_BYTES) - start)
  }

  function Before(start: nat): set<Bytes> {
    set i | 0 <= i < start :: Numeral(i, KEY_BYTES)
  }

  lemma CountedKey(start: nat, i: nat)
    requires start <= Power(KEY_BYTES)
    ensures Counting(start).draw(i) == Numeral(start + i, KEY_BYTES)
    ensures |Counting(start).draw(i)| == KEY_BYTES && Counting(start).size == Power(KEY_BYTES) - start
  {
    hide Numeral, Power;
  }

  lemma CountingIsFresh(start: nat, public: Bytes -> Bytes)
    requires start <= Power(KEY_BYTES) && forall key | |key| == KEY_BYTES :: public(key) == key
    ensures Fresh(Counting(start), public, Before(start))
  {
    hide Numeral, Power, Counting;
    var supply := Counting(start);
    forall i: nat ensures |supply.draw(i)| == KEY_BYTES {
      CountedKey(start, i);
    }
    forall i: nat | i < supply.size ensures public(supply.draw(i)) !in Before(start) {
      CountedKey(start, i);
      forall j | 0 <= j < start ensures Numeral(j, KEY_BYTES) != Numeral(start + i, KEY_BYTES) {
        NumeralsDiffer(j, start + i, KEY_BYTES);
      }
    }
    forall i: nat, j: nat | i < j < supply.size ensures public(supply.draw(i)) != public(supply.draw(j)) {
      CountedKey(start, i);
      CountedKey(start, j);
      NumeralsDiffer(start + i, start + j, KEY_BYTES);
    }
  }

  /** A registry text: whether it is active, then the public half. */
  function Flagged(): Codec {
    Codec(key => key,
          (a: Authority) => [if a.active then 1 else 0] + a.public,
          (raw: Bytes) => if |raw| == 1 + KEY_BYTES && raw[0] <= 1 then Some(Authority(raw[1..], raw[0] == 1))
            else None)
  }

  lemma FlaggedIsCanonical()
    ensures Flagged().Canonical()
  {
    var codec := Flagged();
    forall a: Authority | |a.public| == KEY_BYTES ensures codec.decode(codec.encode(a)) == Some(a) {
      assert codec.encode(a)[1..] == a.public;
    }
    forall raw | codec.decode(raw).Some?
      ensures |codec.decode(raw).value.public| == KEY_BYTES && codec.encode(codec.decode(raw).value) == raw
    {
      assert raw == [raw[0]] + raw[1..];
    }
  }

  lemma PairRests(codec: Codec, forbidden: set<Bytes>, supply: Supply, files: Tree)
    requires codec.Canonical() && Fresh(supply, codec.public, forbidden) && 0 < supply.size
    requires files ==
      map[Final(InstalledPrivate) := supply.draw(0), Final(InstalledRegistry) := codec.Active(supply.draw(0))]
    ensures Idle(codec, forbidden, files, {}, supply.draw(0)) && Undrawn(codec, supply, 1, files, supply.draw(0))
  {
    hide Codec.Canonical, Idle;
    RetentionProvisioning.PairIsIdle(codec, forbidden, files, supply.draw(0));
    assert ArchivedIds(files) == {};
  }

  /** A rotation can start: the first key drawn, installed with its registry, and
      more keys to come than a history holds. */
  lemma FirstPairRests(start: nat)
    requires start < Power(KEY_BYTES)
    ensures
      var codec, supply := Flagged(), Counting(start);
      var key := supply.draw(0);
      var files := map[Final(InstalledPrivate) := key, Final(InstalledRegistry) := codec.Active(key)];
      && codec.Canonical() && Fresh(supply, codec.public, Before(start))
      && Idle(codec, Before(start), files, {}, key) && Undrawn(codec, supply, 1, files, key)
      && (start < HISTORY_LIMIT ==> 1 + 6 * HISTORY_LIMIT < supply.size)
  {
    hide Power;
    var codec, supply := Flagged(), Counting(start);
    PowerIsLarge(KEY_BYTES);
    FlaggedIsCanonical();
    CountingIsFresh(start, codec.public);
    var key := supply.draw(0);
    var files: Tree := map[Final(InstalledPrivate) := key, Final(InstalledRegistry) := codec.Active(key)];
    PairRests(codec, Before(start), supply, files);
  }
}
