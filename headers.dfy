/**
 * The request header store of BaseHttpRequest: a "set" map holding one value
 * per key (`setHeader`) and an "add" map holding a set of values per key
 * (`addHeader`). `HeaderState` is its value and the functions on it say what
 * each operation does; `HeaderStore` is the mutable object whose methods are
 * proved to follow them.
 */
module Headers {
  import opened Wrappers
  import opened Totals

  /** The header names of Apache's `HTTP.CONTENT_TYPE` and `HTTP.CONTENT_LEN`. */
  const ContentType := "Content-Type"
  const ContentLength := "Content-Length"

  /** A (name, value) pair, as listed by `getAllHeaders`. */
  datatype Header = Header(name: string, value: string)

  datatype HeaderState = HeaderState(setHeaders: map<string, string>, addHeaders: map<string, set<string>>)

  /** `k` is bound to the same value in `m` and `m'`, or to none in either. */
  ghost predicate Agree<V>(m: map<string, V>, m': map<string, V>, k: string) {
    (k in m <==> k in m') && (k in m ==> m[k] == m'[k])
  }

  /** `setHeader(key, value)`; a `None` value is Java's null. */
  function WithSet(h: HeaderState, key: string, value: Option<string>): (r: HeaderState)
    ensures key !in r.addHeaders
    ensures value.None? ==> key !in r.setHeaders
    ensures value.Some? ==> key in r.setHeaders && r.setHeaders[key] == value.value
    ensures forall k :: k != key ==> Agree(h.setHeaders, r.setHeaders, k) && Agree(h.addHeaders, r.addHeaders, k)
  {
    HeaderState(if value.None? then h.setHeaders - {key} else h.setHeaders[key := value.value], h.addHeaders - {key})
  }

  /** The values added under `key` so far. */
  function Added(h: HeaderState, key: string): set<string> {
    if key in h.addHeaders then h.addHeaders[key] else {}
  }

  /** `addHeader(key, value)`. */
  function WithAdded(h: HeaderState, key: string, value: string): (r: HeaderState)
    ensures r.setHeaders == h.setHeaders
    ensures key in r.addHeaders && r.addHeaders[key] == Added(h, key) + {value}
    ensures forall k :: k != key ==> Agree(h.addHeaders, r.addHeaders, k)
  {
    HeaderState(h.setHeaders, h.addHeaders[key := Added(h, key) + {value}])
  }

  /**
   * The values `getHeader(name)` may return: the "set" value when there is
   * one, otherwise any one of the added values, otherwise null.
   */
  ghost predicate IsHeaderValue(h: HeaderState, name: string, r: Option<string>) {
    if name in h.setHeaders then r == Some(h.setHeaders[name])
    else if Added(h, name) != {} then r.Some? && r.value in Added(h, name)
    else r == None
  }

  /** How many times `getAllHeaders` lists `x` among the "set" headers. */
  function SetCount(m: map<string, string>, x: Header): nat {
    if x.name in m && m[x.name] == x.value then 1 else 0
  }

  /** How many times `getAllHeaders` lists `x` among the added headers. */
  function AddCount(m: map<string, set<string>>, x: Header): nat {
    if x.name in m && x.value in m[x.name] then 1 else 0
  }

  /** The number of values added under the keys in `keys`. */
  ghost function AddedTotal(m: map<string, set<string>>, keys: set<string>): nat {
    Total(map k | k in keys && k in m :: |m[k]|)
  }

  /** The number of (key, value) pairs in the "add" map. */
  ghost function AddedCount(m: map<string, set<string>>): nat {
    AddedTotal(m, m.Keys)
  }

  lemma AddedTotalStep(m: map<string, set<string>>, keys: set<string>, k: string)
    requires k in keys && k in m
    ensures AddedTotal(m, keys) == |m[k]| + AddedTotal(m, keys - {k})
  {
    var sizes := map j | j in keys && j in m :: |m[j]|;
    TotalRemove(sizes, k);
    assert sizes - {k} == map j | j in keys - {k} && j in m :: |m[j]|;
  }

  /** The "set" headers, one entry per key, in hash order. */
  method ListSetHeaders(m: map<string, string>) returns (s: seq<Header>)
    ensures |s| == |m|
    ensures forall x :: multiset(s)[x] == SetCount(m, x)
  {
    s := [];
    var todo := m.Keys;
    while todo != {}
      invariant todo <= m.Keys
      invariant |s| + |todo| == |m|
      invariant forall x :: multiset(s)[x] == if x.name in todo then 0 else SetCount(m, x)
      decreases |todo|
    {
      var k :| k in todo;
      s := s + [Header(k, m[k])];
      todo := todo - {k};
    }
  }

  /** One entry per value added under `key`, in hash order. */
  method ListValues(key: string, values: set<string>) returns (s: seq<Header>)
    ensures |s| == |values|
    ensures forall x :: multiset(s)[x] == if x.name == key && x.value in values then 1 else 0
  {
    s := [];
    var pending := values;
    while pending != {}
      invariant pending <= values
      invariant |s| + |pending| == |values|
      invariant forall x :: multiset(s)[x] == if x.name == key && x.value in values - pending then 1 else 0
      decreases |pending|
    {
      var v :| v in pending;
      s := s + [Header(key, v)];
      pending := pending - {v};
    }
  }

  /** The added headers, one entry per (key, value) pair, in hash order. */
  method ListAddedHeaders(m: map<string, set<string>>) returns (s: seq<Header>)
    ensures |s| == AddedCount(m)
    ensures forall x :: multiset(s)[x] == AddCount(m, x)
  {
    s := [];
    var keys := m.Keys;
    while keys != {}
      invariant keys <= m.Keys
      invariant |s| + AddedTotal(m, keys) == AddedCount(m)
      invariant forall x :: multiset(s)[x] == if x.name in keys then 0 else AddCount(m, x)
      decreases |keys|
    {
      var k :| k in keys;
      var block := ListValues(k, m[k]);
      s := s + block;
      AddedTotalStep(m, keys, k);
      keys := keys - {k};
    }
  }

  // ------------------------------------------------------------------ lemmas

  /** A set value is what `getHeader` returns, whatever was added before. */
  lemma SetThenGet(h: HeaderState, key: string, value: string, r: Option<string>)
    ensures IsHeaderValue(WithSet(h, key, Some(value)), key, r) <==> r == Some(value)
  {
  }

  /** `setHeader(key, null)` leaves no value at all under `key`, even added ones. */
  lemma RemoveThenGet(h: HeaderState, key: string, r: Option<string>)
    ensures IsHeaderValue(WithSet(h, key, None), key, r) <==> r == None
    ensures forall x: Header :: x.name == key ==> SetCount(WithSet(h, key, None).setHeaders, x) == 0 && AddCount(WithSet(h, key, None).addHeaders, x) == 0
  {
  }

  /** A set value still wins over values added after it. */
  lemma SetWinsOverLaterAdd(h: HeaderState, key: string, value: string, added: string, r: Option<string>)
    ensures IsHeaderValue(WithAdded(WithSet(h, key, Some(value)), key, added), key, r) <==> r == Some(value)
  {
  }

  /** Without a set value, `getHeader` returns one of the added values, the new one among them. */
  lemma AddThenGet(h: HeaderState, key: string, value: string, r: Option<string>)
    requires key !in h.setHeaders
    ensures IsHeaderValue(WithAdded(h, key, value), key, Some(value))
    ensures IsHeaderValue(WithAdded(h, key, value), key, r) <==> r.Some? && (r.value == value || r.value in Added(h, key))
  {
  }

  /** Adding the same value twice is the same as adding it once. */
  lemma AddTwice(h: HeaderState, key: string, value: string)
    ensures WithAdded(WithAdded(h, key, value), key, value) == WithAdded(h, key, value)
  {
    var once := WithAdded(h, key, value);
    assert Added(once, key) + {value} == Added(once, key);
  }

  /** Operations on different keys commute. */
  lemma DifferentKeysCommute(h: HeaderState, k1: string, v1: Option<string>, k2: string, v2: string)
    requires k1 != k2
    ensures WithAdded(WithSet(h, k1, v1), k2, v2) == WithSet(WithAdded(h, k2, v2), k1, v1)
  {
    var a, b := WithAdded(WithSet(h, k1, v1), k2, v2), WithSet(WithAdded(h, k2, v2), k1, v1);
    assert a.setHeaders == b.setHeaders;
    assert a.addHeaders == b.addHeaders;
  }

  // ------------------------------------------------------------------- store

  class HeaderStore {
    var setHeaders: map<string, string>
    var addHeaders: map<string, set<string>>

    function State(): HeaderState
      reads this
    {
      HeaderState(setHeaders, addHeaders)
    }

    constructor ()
      ensures State() == HeaderState(map[], map[])
    {
      setHeaders := map[];
      addHeaders := map[];
    }

    method AddHeader(key: string, value: string)
      modifies this
      ensures State() == WithAdded(old(State()), key, value)
    {
      var values := if key in addHeaders then addHeaders[key] else {};
      addHeaders := addHeaders[key := values + {value}];
    }

    method SetHeader(key: string, value: Option<string>)
      modifies this
      ensures State() == WithSet(old(State()), key, value)
    {
      addHeaders := addHeaders - {key};
      if value.None? {
        setHeaders := setHeaders - {key};
      } else {
        setHeaders := setHeaders[key := value.value];
      }
    }

    /** Replaces the whole state; what a request signer's changes amount to. */
    method Assign(s: HeaderState)
      modifies this
      ensures State() == s
    {
      setHeaders, addHeaders := s.setHeaders, s.addHeaders;
    }

    method GetHeader(name: string) returns (r: Option<string>)
      ensures IsHeaderValue(State(), name, r)
    {
      if name in setHeaders {
        return Some(setHeaders[name]);
      }
      if name in addHeaders && addHeaders[name] != {} {
        var v :| v in addHeaders[name];
        return Some(v);
      }
      return None;
    }

    /**
     * `getAllHeaders`: the default headers first, then every "set" header
     * once, then every added (key, value) pair once; hash order inside each part.
     */
    method GetAllHeaders(defaults: seq<Header>) returns (r: seq<Header>)
      ensures |r| == |defaults| + |setHeaders| + AddedCount(addHeaders)
      ensures r[..|defaults|] == defaults
      ensures forall x :: multiset(r[|defaults|..|defaults| + |setHeaders|])[x] == SetCount(setHeaders, x)
      ensures forall x :: multiset(r[|defaults| + |setHeaders|..])[x] == AddCount(addHeaders, x)
    {
      var fromSet := ListSetHeaders(setHeaders);
      var fromAdd := ListAddedHeaders(addHeaders);
      r := defaults + fromSet + fromAdd;
      assert r[..|defaults|] == defaults;
      assert r[|defaults|..|defaults| + |setHeaders|] == fromSet;
      assert r[|defaults| + |setHeaders|..] == fromAdd;
    }
  }
}
