/** `std::map<CString, std::vector<T>>` as the sequence a traversal visits: pairs ascending by
    key, the values of one key in the order they were pushed. A key is present exactly when it
    has a value, as in every map the configuration code builds. */
module Multimap {

  datatype Keyed<T> = Keyed(key: string, item: T)

  /** The order of `std::string`. */
  predicate Less(a: string, b: string) {
    if b == "" then false
    else if a == "" then true
    else a[0] < b[0] || (a[0] == b[0] && Less(a[1..], b[1..]))
  }

  lemma {:induction false} LessTransitive(a: string, b: string, c: string)
    ensures Less(a, b) && Less(b, c) ==> Less(a, c)
  {
    if a != "" && b != "" && c != "" {
      LessTransitive(a[1..], b[1..], c[1..]);
    }
  }

  lemma {:induction false} LessTotal(a: string, b: string)
    ensures !(Less(a, b) && Less(b, a))
    ensures !Less(a, b) && !Less(b, a) <==> a == b
  {
    if a != "" && b != "" {
      LessTotal(a[1..], b[1..]);
      assert a == [a[0]] + a[1..] && b == [b[0]] + b[1..];
    }
  }

  /** The first character that differs decides. */
  lemma {:induction false} LessAt(a: string, b: string, i: nat)
    requires i < |a| && i < |b| && a[..i] == b[..i] && a[i] != b[i]
    ensures Less(a, b) <==> a[i] < b[i]
    decreases i
  {
    if i > 0 {
      assert a[0] == a[..i][0] == b[..i][0] == b[0];
      assert a[1..][..i - 1] == a[..i][1..] && b[1..][..i - 1] == b[..i][1..];
      LessAt(a[1..], b[1..], i - 1);
    }
  }

  /** Without one, the shorter string comes first. */
  lemma {:induction false} LessPrefix(a: string, b: string)
    requires a <= b
    ensures Less(a, b) <==> |a| < |b|
  {
    if a != "" {
      LessPrefix(a[1..], b[1..]);
    }
  }

  ghost predicate Sorted<T>(m: seq<Keyed<T>>) {
    forall i, j :: 0 <= i < j < |m| ==> !Less(m[j].key, m[i].key)
  }

  /** `m[key].push_back(item)`. */
  function Insert<T>(m: seq<Keyed<T>>, key: string, item: T): (r: seq<Keyed<T>>)
    ensures |r| == |m| + 1
  {
    if m == [] || Less(key, m[0].key) then [Keyed(key, item)] + m
    else [m[0]] + Insert(m[1..], key, item)
  }

  /** `m[key]`. */
  function Values<T>(m: seq<Keyed<T>>, key: string): seq<T> {
    if m == [] then []
    else (if m[0].key == key then [m[0].item] else []) + Values(m[1..], key)
  }

  lemma {:induction false} InsertMembers<T>(m: seq<Keyed<T>>, key: string, item: T, e: Keyed<T>)
    ensures e in Insert(m, key, item) <==> e in m || e == Keyed(key, item)
  {
    if !(m == [] || Less(key, m[0].key)) {
      InsertMembers(m[1..], key, item, e);
    }
  }

  lemma {:induction false} InsertSorted<T>(m: seq<Keyed<T>>, key: string, item: T)
    requires Sorted(m)
    ensures Sorted(Insert(m, key, item))
  {
    if m == [] {
    } else if Less(key, m[0].key) {
      LessTotal(key, m[0].key);
      forall j | 0 <= j < |m| ensures !Less(m[j].key, key) {
        LessTransitive(key, m[0].key, m[j].key);
        LessTotal(key, m[j].key);
        LessTotal(m[0].key, m[j].key);
      }
    } else {
      var rest := Insert(m[1..], key, item);
      InsertSorted(m[1..], key, item);
      forall j | 0 <= j < |rest| ensures !Less(rest[j].key, m[0].key) {
        InsertMembers(m[1..], key, item, rest[j]);
        assert rest[j] in rest;
      }
    }
  }

  /** Insertion changes the values of the one key, by appending. */
  lemma {:induction false} InsertValues<T>(m: seq<Keyed<T>>, key: string, item: T, other: string)
    requires Sorted(m)
    ensures Values(Insert(m, key, item), other)
         == Values(m, other) + (if other == key then [item] else [])
  {
    if m == [] {
    } else if Less(key, m[0].key) {
      if other == key {
        forall j | 0 <= j < |m| ensures m[j].key != key {
          LessTransitive(key, m[0].key, m[j].key);
          LessTotal(m[0].key, m[j].key);
          LessTotal(key, key);
        }
        ValuesAbsent(m, key);
      }
    } else {
      InsertValues(m[1..], key, item, other);
    }
  }

  lemma {:induction false} ValuesAbsent<T>(m: seq<Keyed<T>>, key: string)
    requires forall j :: 0 <= j < |m| ==> m[j].key != key
    ensures Values(m, key) == []
  {
    if m != [] {
      ValuesAbsent(m[1..], key);
    }
  }

  /** The next element of a traversal goes to the end, so copying a map in its own order
      rebuilds it. */
  lemma {:induction false} InsertLast<T>(m: seq<Keyed<T>>, key: string, item: T)
    requires forall j :: 0 <= j < |m| ==> !Less(key, m[j].key)
    ensures Insert(m, key, item) == m + [Keyed(key, item)]
  {
    if m != [] {
      InsertLast(m[1..], key, item);
    }
  }
}
