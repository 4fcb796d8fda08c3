/**
 * The id-keyed topology document read by the network-logic and voltage-flow engines:
 * `stations` is an object of station name -> `{nodes, switches}`, where `nodes` maps a node id
 * to `{connects: [switch id ...]}` and `switches` maps a switch id to `{from, to, state}`;
 * `feeds` is an object of feed name -> `{node}`.
 *
 * A JSON object is modelled as the sequence of its own properties in iteration order, so that
 * "the first station that has it" keeps its meaning. A string field that is absent (or
 * otherwise falsy) is the empty string: every use in the engines only tests it for
 * truthiness or compares it with a non-empty id.
 */
module KeyedTopology {
  import opened Wrappers

  /** The one switch state that conducts. */
  const Closed := "closed"

  /** One own property of a JSON object. */
  datatype Entry<V> = Entry(key: string, val: V)

  /** A node; `connects` is `None` when the field is missing or is not an array. */
  datatype NodeDef = NodeDef(connects: Option<seq<string>>)

  /** A switch definition; `state` is the declared initial state. */
  datatype SwitchDef = SwitchDef(from: string, to: string, state: string)

  /** A station; an absent `nodes` or `switches` object is an empty one. */
  datatype Station = Station(nodes: seq<Entry<NodeDef>>, switches: seq<Entry<SwitchDef>>)

  datatype Feed = Feed(node: string)

  /**
   * An absent `stations` object behaves exactly like an empty one in every engine, so it is
   * one. `feeds` is `None` when it is missing or is not an object.
   */
  datatype Topology = Topology(stations: seq<Entry<Station>>, feeds: Option<seq<Entry<Feed>>>)

  /** The live switch-state document: switch id -> its `state` field ("" when absent). */
  type SwitchData = map<string, string>

  /** `obj[key]`: the value of the property named `key`, if the object has one. */
  function Lookup<V>(obj: seq<Entry<V>>, key: string): Option<V> {
    if |obj| == 0 then None
    else if obj[0].key == key then Some(obj[0].val)
    else Lookup(obj[1..], key)
  }

  /** `key` is the key of entry `k` and of no entry before it. */
  predicate FirstWithKey<V>(obj: seq<Entry<V>>, key: string, k: int) {
    0 <= k < |obj| && obj[k].key == key && forall j :: 0 <= j < k ==> obj[j].key != key
  }

  /** Lookup finds the first entry with the key, and nothing when no entry has it. */
  lemma {:induction false} LookupSpec<V>(obj: seq<Entry<V>>, key: string)
    ensures Lookup(obj, key).None? <==> forall k :: 0 <= k < |obj| ==> obj[k].key != key
    ensures Lookup(obj, key).Some? ==>
      exists k :: FirstWithKey(obj, key, k) && obj[k].val == Lookup(obj, key).value
  {
    if |obj| > 0 && obj[0].key != key {
      LookupSpec(obj[1..], key);
      assert forall k :: 0 <= k < |obj| - 1 ==> obj[1..][k] == obj[k + 1];
      if Lookup(obj[1..], key).Some? {
        var k :| FirstWithKey(obj[1..], key, k) && obj[1..][k].val == Lookup(obj, key).value;
        assert FirstWithKey(obj, key, k + 1);
      }
    } else if |obj| > 0 {
      assert FirstWithKey(obj, key, 0);
    }
  }
}
