/**
 * Object spread. `{...a, ...b}` keeps every key of `a` and `b`, and a key that
 * both have takes its value from `b`. A chain of spreads over a list of layers
 * is an overlay in which, for every key, the last layer holding it wins.
 */
module Records {

  /** `{...layers[0], ...layers[1], ..., ...layers[n-1]}`. */
  function Overlay<K, V>(layers: seq<map<K, V>>): map<K, V>
  {
    if layers == [] then map[] else Overlay(layers[..|layers| - 1]) + layers[|layers| - 1]
  }

  /** `i` is the last layer that holds `k`. */
  ghost predicate LastHolder<K, V>(layers: seq<map<K, V>>, k: K, i: int)
  {
    0 <= i < |layers| && k in layers[i] &&
    forall j :: i < j < |layers| ==> k !in layers[j]
  }

  /** Last writer wins: a key is in the overlay iff some layer holds it, and its
      value is the one of the last layer that holds it. */
  lemma {:induction false} OverlayLastWins<K, V>(layers: seq<map<K, V>>, k: K)
    ensures k in Overlay(layers) <==> exists i :: 0 <= i < |layers| && k in layers[i]
    ensures forall i :: LastHolder(layers, k, i) ==> k in Overlay(layers) && Overlay(layers)[k] == layers[i][k]
  {
    if layers != [] {
      var n := |layers| - 1;
      var init := layers[..n];
      OverlayLastWins(init, k);
      if k !in layers[n] {
        forall i | 0 <= i < |layers| && k in layers[i] ensures 0 <= i < |init| && k in init[i] {
        }
        forall i | LastHolder(layers, k, i) ensures k in Overlay(layers) && Overlay(layers)[k] == layers[i][k] {
          assert LastHolder(init, k, i);
        }
      }
    }
  }

  /** The overlay of a list that ends with another overlay's layers. */
  lemma {:induction false} OverlayAppend<K, V>(layers: seq<map<K, V>>, last: map<K, V>)
    ensures Overlay(layers + [last]) == Overlay(layers) + last
  {
    assert (layers + [last])[..|layers|] == layers;
  }
}
