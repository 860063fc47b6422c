/** `Object.entries` on the values the stores hold. */
module ObjectEntries {
  import opened Json
  import opened KeyOrder

  /** `Object.entries(v)`: the own members of an object, keys in ascending
      order; no members for any other value. */
  function Entries(v: Json): (es: seq<(string, Json)>)
    ensures forall i :: 0 <= i < |es| ==> v.JObj? && es[i].0 in v.fields && es[i].1 == v.fields[es[i].0]
    ensures v.JObj? ==> forall k :: k in v.fields ==> exists i :: 0 <= i < |es| && es[i].0 == k
    ensures forall i, j :: 0 <= i < j < |es| ==> Below(es[i].0, es[j].0) && es[i].0 != es[j].0
  {
    if v.JObj? then
      var keys := SortedKeys(v.fields.Keys);
      EntriesOfKeys(v.fields, keys);
      EntriesOf(v.fields, keys)
    else []
  }

  function EntriesOf(fields: map<string, Json>, keys: seq<string>): (es: seq<(string, Json)>)
    requires forall k :: k in keys ==> k in fields
    ensures |es| == |keys|
    ensures forall i :: 0 <= i < |es| ==> es[i] == (keys[i], fields[keys[i]])
    decreases |keys|
  {
    if keys == [] then [] else [(keys[0], fields[keys[0]])] + EntriesOf(fields, keys[1..])
  }

  /** The entries for an ascending listing of all the keys carry every key
      once, in that order. */
  lemma EntriesOfKeys(fields: map<string, Json>, keys: seq<string>)
    requires forall k :: k in keys <==> k in fields
    requires Ascending(keys)
    ensures var es := EntriesOf(fields, keys);
      && (forall k :: k in fields ==> exists i :: 0 <= i < |es| && es[i].0 == k)
      && (forall i, j :: 0 <= i < j < |es| ==> Below(es[i].0, es[j].0) && es[i].0 != es[j].0)
  {
    var es := EntriesOf(fields, keys);
    forall i, j | 0 <= i < j < |es| ensures Below(es[i].0, es[j].0) && es[i].0 != es[j].0 {
      assert es[i].0 == keys[i] && es[j].0 == keys[j];
    }
    forall k | k in fields ensures exists i :: 0 <= i < |es| && es[i].0 == k {
      var i := EntryOf(fields, keys, k);
    }
  }

  /** The position of a listed key among the entries. */
  lemma EntryOf(fields: map<string, Json>, keys: seq<string>, k: string) returns (i: nat)
    requires forall k :: k in keys ==> k in fields
    requires k in keys
    ensures i < |EntriesOf(fields, keys)| && EntriesOf(fields, keys)[i].0 == k
  {
    i :| i < |keys| && keys[i] == k;
  }
}
