/** Python's insertion-ordered `dict`, and the "parse every line, later lines
    overwrite earlier ones" loop that fills one. */
module PyDict {
  import opened Text

  /** A dict: its entries and its keys in first-insertion order. */
  datatype Dict<K(==,!new), V> = Dict(order: seq<K>, entries: map<K, V>) {

    ghost predicate Valid() {
      && (forall i, j :: 0 <= i < j < |order| ==> order[i] != order[j])
      && (forall k :: k in entries <==> k in order)
    }

    /** `not d` */
    predicate IsEmpty() {
      |order| == 0
    }

    /** `d[k] = v`: a new key goes to the end, an existing key keeps its place. */
    function Set(k: K, v: V): (d: Dict<K, V>)
      requires Valid()
      ensures d.Valid()
      ensures d.entries == entries[k := v]
      ensures k in entries ==> d.order == order
      ensures k !in entries ==> d.order == order + [k]
    {
      Dict(if k in entries then order else order + [k], entries[k := v])
    }

    /** `d.get(k, default)` */
    function Get(k: K, default: V): V {
      if k in entries then entries[k] else default
    }
  }

  function Empty<K(==,!new), V>(): (d: Dict<K, V>)
    ensures d.Valid() && d.IsEmpty() && d.entries == map[]
  {
    Dict([], map[])
  }

  lemma EmptyIffNoEntries<K(!new), V>(d: Dict<K, V>)
    requires d.Valid()
    ensures d.IsEmpty() <==> d.entries == map[]
  {
    if !d.IsEmpty() {
      assert d.order[0] in d.entries;
    }
  }

  /** The keys of `s` in order of first appearance. */
  function Dedup<K(==,!new)>(s: seq<K>): (r: seq<K>)
    ensures forall i, j :: 0 <= i < j < |r| ==> r[i] != r[j]
    ensures forall k :: k in r <==> k in s
    ensures forall i, j :: 0 <= i < j < |r| ==>
              exists p :: 0 <= p < |s| && s[p] == r[i] && r[j] !in s[..p]
  {
    if |s| == 0 then []
    else
      var init, x := s[..|s| - 1], s[|s| - 1];
      var d := Dedup(init);
      assert forall k :: k in s <==> k in init || k == x by {
        assert s == init + [x];
      }
      assert forall p :: 0 <= p < |init| ==> s[p] == init[p] && s[..p] == init[..p];
      if x in d then d
      else
        assert forall i :: 0 <= i < |d| ==>
                 exists p :: 0 <= p < |s| && s[p] == d[i] && x !in s[..p] by {
          forall i | 0 <= i < |d|
            ensures exists p :: 0 <= p < |s| && s[p] == d[i] && x !in s[..p]
          {
            assert d[i] in d;
            var p :| 0 <= p < |init| && init[p] == d[i];
            assert x !in init[..p] by { assert x !in init; }
          }
        }
        d + [x]
  }

  /** One step of the keyed loop: a line that parses to `(k, v)` does `d[k] = v`. */
  function Insert<K(==,!new), V>(d: Dict<K, V>, parsed: Option<(K, V)>): (r: Dict<K, V>)
    requires d.Valid()
    ensures r.Valid()
  {
    match parsed
    case None => d
    case Some(kv) => d.Set(kv.0, kv.1)
  }

  /** The dict built by `for line in lines: if parse(line) is (k, v): d[k] = v`. */
  function KeyedFold<K(==,!new), V>(lines: seq<string>, parse: string -> Option<(K, V)>): (d: Dict<K, V>)
    ensures d.Valid()
  {
    if |lines| == 0 then Empty()
    else Insert(KeyedFold(lines[..|lines| - 1], parse), parse(lines[|lines| - 1]))
  }

  /** One more line is one more `Insert`: the step of every loop that fills a dict. */
  lemma KeyedFoldStep<K(!new), V>(lines: seq<string>, i: nat, parse: string -> Option<(K, V)>)
    requires i < |lines|
    ensures KeyedFold(lines[..i + 1], parse) == Insert(KeyedFold(lines[..i], parse), parse(lines[i]))
  {
    assert lines[..i + 1][..i] == lines[..i];
  }

  /** The keys produced by the lines, in line order (with repetitions). */
  function KeysOf<K(==,!new), V>(lines: seq<string>, parse: string -> Option<(K, V)>): seq<K> {
    if |lines| == 0 then []
    else
      var ks := KeysOf(lines[..|lines| - 1], parse);
      match parse(lines[|lines| - 1])
      case None => ks
      case Some(kv) => ks + [kv.0]
  }

  /** A key is present exactly when some line parses to it. */
  lemma {:induction false} KeyedFoldKeys<K(!new), V>(lines: seq<string>, parse: string -> Option<(K, V)>, k: K)
    ensures k in KeyedFold(lines, parse).entries <==>
            exists i :: 0 <= i < |lines| && parse(lines[i]).Some? && parse(lines[i]).value.0 == k
  {
    if |lines| > 0 {
      var pre := lines[..|lines| - 1];
      KeyedFoldKeys(pre, parse, k);
      if exists i :: 0 <= i < |lines| && parse(lines[i]).Some? && parse(lines[i]).value.0 == k {
        var i :| 0 <= i < |lines| && parse(lines[i]).Some? && parse(lines[i]).value.0 == k;
        if i < |lines| - 1 { assert pre[i] == lines[i]; }
      }
      if exists i :: 0 <= i < |pre| && parse(pre[i]).Some? && parse(pre[i]).value.0 == k {
        var i :| 0 <= i < |pre| && parse(pre[i]).Some? && parse(pre[i]).value.0 == k;
        assert lines[i] == pre[i];
      }
    }
  }

  /** The value under a key is the one parsed from the LAST line that produced it:
      later lines overwrite earlier ones. */
  lemma {:induction false} KeyedFoldLastWins<K(!new), V>(lines: seq<string>, parse: string -> Option<(K, V)>, i: nat)
    requires i < |lines| && parse(lines[i]).Some?
    requires forall j :: i < j < |lines| && parse(lines[j]).Some? ==> parse(lines[j]).value.0 != parse(lines[i]).value.0
    ensures parse(lines[i]).value.0 in KeyedFold(lines, parse).entries
    ensures KeyedFold(lines, parse).entries[parse(lines[i]).value.0] == parse(lines[i]).value.1
  {
    var pre := lines[..|lines| - 1];
    if i < |lines| - 1 {
      assert pre[i] == lines[i];
      forall j | i < j < |pre| && parse(pre[j]).Some?
        ensures parse(pre[j]).value.0 != parse(pre[i]).value.0
      {
        assert pre[j] == lines[j];
      }
      KeyedFoldLastWins(pre, parse, i);
    }
  }

  /** Every stored value was parsed from some line under its key. */
  lemma {:induction false} KeyedFoldValues<K(!new), V>(lines: seq<string>, parse: string -> Option<(K, V)>, k: K)
    requires k in KeyedFold(lines, parse).entries
    ensures exists i :: 0 <= i < |lines| && parse(lines[i]) == Some((k, KeyedFold(lines, parse).entries[k]))
  {
    var pre := lines[..|lines| - 1];
    var last := parse(lines[|lines| - 1]);
    if last.Some? && last.value.0 == k {
      assert parse(lines[|lines| - 1]) == Some((k, KeyedFold(lines, parse).entries[k]));
    } else {
      KeyedFoldValues(pre, parse, k);
      var i :| 0 <= i < |pre| && parse(pre[i]) == Some((k, KeyedFold(pre, parse).entries[k]));
      assert lines[i] == pre[i];
    }
  }

  /** The dict's key order is the order in which keys first appear in the lines. */
  lemma {:induction false} KeyedFoldOrder<K(!new), V>(lines: seq<string>, parse: string -> Option<(K, V)>)
    ensures KeyedFold(lines, parse).order == Dedup(KeysOf(lines, parse))
  {
    if |lines| > 0 {
      var pre := lines[..|lines| - 1];
      KeyedFoldOrder(pre, parse);
      var ks := KeysOf(pre, parse);
      match parse(lines[|lines| - 1])
      case None =>
      case Some(kv) =>
        var full := ks + [kv.0];
        assert full[..|full| - 1] == ks;
    }
  }

  function Filter(lines: seq<string>, keep: string -> bool): (r: seq<string>)
    ensures forall x :: x in r ==> x in lines && keep(x)
  {
    if |lines| == 0 then []
    else
      var f := Filter(lines[..|lines| - 1], keep);
      if keep(lines[|lines| - 1]) then f + [lines[|lines| - 1]] else f
  }

  /** Folding with a parser that rejects every line failing `keep` is folding the
      other parser over just the kept lines. */
  lemma {:induction false} KeyedFoldFilter<K(!new), V>(lines: seq<string>, keep: string -> bool,
                                                 parse: string -> Option<(K, V)>, guarded: string -> Option<(K, V)>)
    requires forall l :: guarded(l) == if keep(l) then parse(l) else None
    ensures KeyedFold(lines, guarded) == KeyedFold(Filter(lines, keep), parse)
  {
    if |lines| > 0 {
      var pre := lines[..|lines| - 1];
      var last := lines[|lines| - 1];
      KeyedFoldFilter(pre, keep, parse, guarded);
      if keep(last) {
        var f := Filter(pre, keep) + [last];
        assert f[..|f| - 1] == Filter(pre, keep);
      }
    }
  }
}
