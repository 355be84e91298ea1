/** A Go `http.Header`: field name to the ordered list of its values. Keys are
    kept in canonical form (`Content-Type`, `Set-Cookie`, ...), which is the
    form every literal key in the proxy already has. */
module Headers {

  type HeaderMap = map<string, seq<string>>

  /** `Header.Get`: the first value of a field, or "" when it has none. */
  function Get(h: HeaderMap, key: string): (r: string)
    ensures key !in h || h[key] == [] ==> r == ""
    ensures key in h && h[key] != [] ==> r == h[key][0]
  {
    if key in h && |h[key]| > 0 then h[key][0] else ""
  }

  /** `Header.Set`: the field holds exactly one value afterwards. */
  function Set(h: HeaderMap, key: string, value: string): (r: HeaderMap)
    ensures r.Keys == h.Keys + {key}
    ensures r[key] == [value] && Get(r, key) == value
    ensures forall k :: k in h && k != key ==> r[k] == h[k]
  {
    h[key := [value]]
  }

  /** `Header.Del`: the field is gone afterwards. */
  function Del(h: HeaderMap, key: string): (r: HeaderMap)
    ensures r.Keys == h.Keys - {key}
    ensures Get(r, key) == ""
    ensures forall k :: k in r ==> r[k] == h[k]
  {
    h - {key}
  }

  /** Each value passed through `update`, order and number kept. */
  function MapValues(update: string -> string, vs: seq<string>): (r: seq<string>)
    ensures |r| == |vs|
    ensures forall i :: 0 <= i < |vs| ==> r[i] == update(vs[i])
  {
    if vs == [] then [] else [update(vs[0])] + MapValues(update, vs[1..])
  }

  /** The header map `mapHeaderVals` leaves behind: a field with at least one
      value has every value passed through `update`; otherwise nothing moves. */
  function MapField(h: HeaderMap, field: string, update: string -> string): HeaderMap
  {
    if field in h && |h[field]| > 0 then h[field := MapValues(update, h[field])] else h
  }

  /** `mapHeaderVals`: builds the new values one by one and stores them back
      under the same field, only when the field has at least one value. */
  method MapHeaderVals(header: HeaderMap, field: string, update: string -> string)
    returns (updated: HeaderMap)
    ensures updated.Keys == header.Keys
    ensures forall k :: k in header && k != field ==> updated[k] == header[k]
    ensures field in header ==> |updated[field]| == |header[field]|
    ensures field in header ==>
      forall i :: 0 <= i < |header[field]| ==> updated[field][i] == update(header[field][i])
    ensures updated == MapField(header, field, update)
  {
    updated := header;
    var h := if field in header then header[field] else [];
    if |h| > 0 {
      var newVals: seq<string> := [];
      for i := 0 to |h|
        invariant |newVals| == i
        invariant forall j :: 0 <= j < i ==> newVals[j] == update(h[j])
      {
        newVals := newVals + [update(h[i])];
      }
      assert newVals == MapValues(update, h);
      updated := header[field := newVals];
    }
  }

  /** Rewriting never adds or removes a field, never changes how many values a
      field has, and touches no field other than `field`. */
  lemma MapFieldShape(h: HeaderMap, field: string, update: string -> string)
    ensures MapField(h, field, update).Keys == h.Keys
    ensures forall k :: k in h ==> |MapField(h, field, update)[k]| == |h[k]|
    ensures forall k :: k in h && k != field ==> MapField(h, field, update)[k] == h[k]
    ensures field !in h ==> MapField(h, field, update) == h
  {
  }

  /** When `update` fixes every value of the field, the header map is unchanged. */
  lemma {:induction false} MapFieldFixed(h: HeaderMap, field: string, update: string -> string)
    requires field in h ==> forall i :: 0 <= i < |h[field]| ==> update(h[field][i]) == h[field][i]
    ensures MapField(h, field, update) == h
  {
    if field in h && |h[field]| > 0 {
      assert MapValues(update, h[field]) == h[field];
    }
  }
}
