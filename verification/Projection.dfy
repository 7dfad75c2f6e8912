/**
 Canonical portfolio projections: rows in strictly increasing byte order of their entity id,
 tags in strictly increasing byte order, and an entity id that is a lower-case host name. A
 set of rows has at most one accepted list.
 */
module Projection {
  import opened Basics
  import opened Text
  import Money

  datatype Price = Price(currency: string, amount: string)
  datatype Row = Row(
    entityId: string,
    note: Option<string>,
    portfolioId: Option<string>,
    tags: seq<string>,
    targetPrice: Option<Price>)

  /** The Unicode tables behind the text checks, left arbitrary. */
  datatype TextRules = TextRules(forbidden: char -> bool, trimmed: string -> bool)

  // ----- Host names -----

  /** Rust's `split('.')`. */
  function Split(value: string): (labels: seq<string>)
    ensures labels != []
  {
    var k := DotIndex(value);
    if k == |value| then [value] else [value[..k]] + Split(value[k + 1..])
  }

  function Join(labels: seq<string>): string
    requires labels != []
  {
    if |labels| == 1 then labels[0] else labels[0] + "." + Join(labels[1..])
  }

  predicate LabelChar(c: char) {
    'a' <= c <= 'z' || IsDigit(c) || c == '-'
  }

  ghost predicate ValidLabel(l: string) {
    l != [] && |l| <= 63 && l[0] != '-' && l[|l| - 1] != '-'
    && forall c :: c in l ==> LabelChar(c)
  }

  ghost predicate AllLabels(labels: seq<string>) {
    forall i :: 0 <= i < |labels| ==> ValidLabel(labels[i])
  }

  /** A dot-join of at least two valid labels, within the length limits. */
  ghost predicate HostName(value: string) {
    3 <= |value| <= 253 && exists labels :: IsHostName(labels, value)
  }

  ghost predicate IsHostName(labels: seq<string>, value: string) {
    |labels| >= 2 && AllLabels(labels) && Join(labels) == value
  }

  lemma {:induction false} JoinOfSplit(value: string)
    ensures Join(Split(value)) == value
    decreases |value|
  {
    var k := DotIndex(value);
    if k < |value| {
      JoinOfSplit(value[k + 1..]);
      SplitParts(value);
      DotParts(value, k);
    }
  }

  lemma SplitParts(value: string)
    requires DotIndex(value) < |value|
    ensures var k := DotIndex(value);
      |Split(value)| > 1 && Split(value)[0] == value[..k] && Split(value)[1..] == Split(value[k + 1..])
  {}

  lemma DotParts(value: string, k: nat)
    requires k < |value| && value[k] == '.'
    ensures value[..k] + "." + value[k + 1..] == value
  {}

  lemma {:induction false} SplitOfJoin(labels: seq<string>)
    requires labels != [] && forall i :: 0 <= i < |labels| ==> '.' !in labels[i]
    ensures Split(Join(labels)) == labels
  {
    var v := Join(labels);
    if |labels| == 1 {
      assert v[..|v|] == v;
      DotIndexUnique(v, |v|);
    } else {
      var head, rest := labels[0], Join(labels[1..]);
      assert v[..|head|] == head && v[|head| + 1..] == rest;
      DotIndexUnique(v, |head|);
      SplitOfJoin(labels[1..]);
    }
  }

  /** The labels of a host name are determined by it. */
  lemma LabelsAreSplit(labels: seq<string>, value: string)
    requires IsHostName(labels, value)
    ensures labels == Split(value)
  {
    forall i | 0 <= i < |labels|
      ensures '.' !in labels[i]
    {
      assert ValidLabel(labels[i]);
    }
    SplitOfJoin(labels);
  }

  lemma {:induction false} JoinedChars(labels: seq<string>)
    requires labels != [] && AllLabels(labels)
    ensures forall c :: c in Join(labels) ==> LabelChar(c) || c == '.'
  {
    assert ValidLabel(labels[0]);
    if |labels| > 1 {
      JoinedChars(labels[1..]);
    }
  }

  predicate UpperCase(c: char) {
    'A' <= c <= 'Z'
  }

  /** A host name is one exactly through its own labels, and has no capital letter. */
  lemma HostNameExactly(value: string)
    ensures HostName(value) <==> 3 <= |value| <= 253 && |Split(value)| >= 2 && AllLabels(Split(value))
    ensures HostName(value) ==> forall c :: c in value ==> !UpperCase(c)
  {
    JoinOfSplit(value);
    if |Split(value)| >= 2 && AllLabels(Split(value)) {
      assert IsHostName(Split(value), value);
    }
    if HostName(value) {
      var labels :| IsHostName(labels, value);
      LabelsAreSplit(labels, value);
      JoinedChars(labels);
    }
  }

  method ValidateDomainAssetId(value: string) returns (ok: bool)
    ensures ok <==> HostName(value)
  {
    var labels := Split(value);
    HostNameExactly(value);
    if |value| > 253 || |value| < 3 || (exists c :: c in value && UpperCase(c)) {
      return false;
    }
    if |labels| < 2 {
      return false;
    }
    for i := 0 to |labels|
      invariant forall j :: 0 <= j < i ==> ValidLabel(labels[j])
    {
      var part := labels[i];
      if part == [] || |part| > 63 || part[0] == '-' || part[|part| - 1] == '-'
         || !(forall c :: c in part ==> 'a' <= c <= 'z' || '0' <= c <= '9' || c == '-') {
        return false;
      }
    }
    return true;
  }

  // ----- Rows -----

  predicate Identifier(value: string) {
    value != [] && |value| <= 160 && forall c :: c in value ==> '\U{0021}' <= c <= '\U{007e}'
  }

  predicate ValidCurrency(value: string) {
    |value| == 3 && forall c :: c in value ==> UpperCase(c)
  }

  ghost predicate ValidNote(note: string, rules: TextRules) {
    |note| <= 10_000 && forall c :: c in note ==> !rules.forbidden(c)
  }

  ghost predicate ValidTag(tag: string, rules: TextRules) {
    tag != [] && |tag| <= 64 && rules.trimmed(tag) && forall c :: c in tag ==> !rules.forbidden(c)
  }

  /** Pairwise, not just next to each other: so no value occurs twice. */
  predicate StrictlyIncreasing(values: seq<string>) {
    forall i, j :: 0 <= i < j < |values| ==> Less(values[i], values[j])
  }

  ghost predicate CanonicalTags(tags: seq<string>, rules: TextRules) {
    |tags| <= 128 && StrictlyIncreasing(tags) && forall i :: 0 <= i < |tags| ==> ValidTag(tags[i], rules)
  }

  ghost predicate CanonicalFields(row: Row, rules: TextRules) {
    (row.note.Some? ==> ValidNote(row.note.value, rules))
    && (row.portfolioId.Some? ==> Identifier(row.portfolioId.value))
    && CanonicalTags(row.tags, rules)
    && (row.targetPrice.Some? ==> ValidCurrency(row.targetPrice.value.currency)
                                  && Money.ValidAmount(row.targetPrice.value.amount))
  }

  ghost predicate CanonicalRow(row: Row, rules: TextRules) {
    HostName(row.entityId) && CanonicalFields(row, rules)
  }

  function Ids(rows: seq<Row>): (ids: seq<string>)
    ensures |ids| == |rows| && forall i :: 0 <= i < |rows| ==> ids[i] == rows[i].entityId
  {
    seq(|rows|, i requires 0 <= i < |rows| => rows[i].entityId)
  }

  ghost predicate Canonical(rows: seq<Row>, rules: TextRules) {
    StrictlyIncreasing(Ids(rows)) && forall i :: 0 <= i < |rows| ==> CanonicalRow(rows[i], rules)
  }

  /** Comparing with the last element only is enough to extend a strictly increasing list. */
  lemma ExtendIncreasing(values: seq<string>, next: string)
    requires StrictlyIncreasing(values)
    ensures StrictlyIncreasing(values + [next]) <==> values == [] || Less(values[|values| - 1], next)
  {
    var all := values + [next];
    var n := |values|;
    if n > 0 && Less(values[n - 1], next) {
      forall i, j | 0 <= i < j < |all|
        ensures Less(all[i], all[j])
      {
        if j == n && i < n - 1 {
          LessTransitive(values[i], values[n - 1], next);
        }
      }
    } else if n > 0 {
      assert !Less(all[n - 1], all[n]);
    }
  }

  /** One more element of a list is in order exactly when it follows the last one. */
  lemma NextIncreasing(values: seq<string>, i: nat)
    requires i < |values| && StrictlyIncreasing(values[..i])
    ensures StrictlyIncreasing(values[..i + 1]) <==> i == 0 || Less(values[i - 1], values[i])
    ensures StrictlyIncreasing(values) ==> i == 0 || Less(values[i - 1], values[i])
  {
    ExtendIncreasing(values[..i], values[i]);
    assert values[..i + 1] == values[..i] + [values[i]];
  }

  method ValidateTags(tags: seq<string>, rules: TextRules) returns (ok: bool)
    ensures ok <==> CanonicalTags(tags, rules)
  {
    if |tags| > 128 {
      return false;
    }
    var previous: Option<string> := None;
    for i := 0 to |tags|
      invariant StrictlyIncreasing(tags[..i])
      invariant forall j :: 0 <= j < i ==> ValidTag(tags[j], rules)
      invariant previous == if i == 0 then None else Some(tags[i - 1])
    {
      NextIncreasing(tags, i);
      if tags[i] == [] || |tags[i]| > 64 || !rules.trimmed(tags[i])
         || (exists c :: c in tags[i] && rules.forbidden(c)) {
        return false;
      }
      if previous.Some? && !Less(previous.value, tags[i]) {
        return false;
      }
      previous := Some(tags[i]);
    }
    assert tags[..|tags|] == tags;
    return true;
  }

  method ValidateFields(row: Row, rules: TextRules) returns (ok: bool)
    ensures ok <==> CanonicalFields(row, rules)
  {
    if row.note.Some? && (|row.note.value| > 10_000 || (exists c :: c in row.note.value && rules.forbidden(c))) {
      return false;
    }
    if row.portfolioId.Some? && !Identifier(row.portfolioId.value) {
      return false;
    }
    ok := ValidateTags(row.tags, rules);
    if !ok {
      return false;
    }
    if row.targetPrice.Some?
       && (!ValidCurrency(row.targetPrice.value.currency) || !Money.ValidAmount(row.targetPrice.value.amount)) {
      return false;
    }
  }

  ghost predicate CanonicalTo(rows: seq<Row>, rules: TextRules, i: nat)
    requires i <= |rows|
  {
    StrictlyIncreasing(Ids(rows)[..i]) && forall j :: 0 <= j < i ==> CanonicalRow(rows[j], rules)
  }

  /** The row at a place is the next one in order, or the list is not canonical. */
  ghost predicate Follows(rows: seq<Row>, rules: TextRules, i: nat)
    requires i < |rows|
  {
    CanonicalRow(rows[i], rules) && (i > 0 ==> Less(rows[i - 1].entityId, rows[i].entityId))
  }

  lemma CanonicalNext(rows: seq<Row>, rules: TextRules, i: nat)
    requires i < |rows| && CanonicalTo(rows, rules, i)
    ensures CanonicalTo(rows, rules, i + 1) <==> Follows(rows, rules, i)
    ensures Canonical(rows, rules) ==> Follows(rows, rules, i)
  {
    NextIncreasing(Ids(rows), i);
  }

  method ValidateProjection(rows: seq<Row>, rules: TextRules) returns (ok: bool)
    ensures ok <==> Canonical(rows, rules)
  {
    var previous: Option<string> := None;
    for i := 0 to |rows|
      invariant CanonicalTo(rows, rules, i)
      invariant previous == if i == 0 then None else Some(rows[i - 1].entityId)
    {
      var row := rows[i];
      CanonicalNext(rows, rules, i);
      var idOk := ValidateDomainAssetId(row.entityId);
      if !idOk {
        return false;
      }
      if previous.Some? && !Less(previous.value, row.entityId) {
        return false;
      }
      previous := Some(row.entityId);
      var fieldsOk := ValidateFields(row, rules);
      if !fieldsOk {
        return false;
      }
    }
    assert Ids(rows)[..|rows|] == Ids(rows);
    return true;
  }

  // ----- One list per set -----

  lemma {:induction false} IncreasingListUnique(a: seq<string>, b: seq<string>)
    requires StrictlyIncreasing(a) && StrictlyIncreasing(b)
    requires forall x :: x in a <==> x in b
    ensures a == b
  {
    assert b != [] ==> b[0] in b;
    if a != [] {
      assert a[0] in b;
      SameHead(a, b);
      forall x
        ensures x in a[1..] <==> x in b[1..]
      {
        InTail(a, x);
        InTail(b, x);
      }
      IncreasingListUnique(a[1..], b[1..]);
      assert a == [a[0]] + a[1..] && b == [b[0]] + b[1..];
    }
  }

  lemma SameHead(a: seq<string>, b: seq<string>)
    requires a != [] && b != [] && StrictlyIncreasing(a) && StrictlyIncreasing(b) && a[0] in b && b[0] in a
    ensures a[0] == b[0]
  {
    var i :| 0 <= i < |a| && a[i] == b[0];
    var j :| 0 <= j < |b| && b[j] == a[0];
    if 0 < i && 0 < j {
      LessTransitive(a[0], b[0], a[0]);
      LessIrreflexive(a[0]);
    }
  }

  lemma InTail(a: seq<string>, x: string)
    requires a != [] && StrictlyIncreasing(a)
    ensures x in a[1..] <==> x in a && x != a[0]
  {
    assert a == [a[0]] + a[1..];
    LessIrreflexive(a[0]);
  }

  /** Two accepted lists with the same rows are the same list. */
  lemma SameRowsSameList(a: seq<Row>, b: seq<Row>, rules: TextRules)
    requires Canonical(a, rules) && Canonical(b, rules)
    requires forall r :: r in a <==> r in b
    ensures a == b
  {
    forall x
      ensures x in Ids(a) <==> x in Ids(b)
    {
      IdComesFromRow(a, b, x);
      IdComesFromRow(b, a, x);
    }
    IncreasingListUnique(Ids(a), Ids(b));
    forall i | 0 <= i < |a|
      ensures a[i] == b[i]
    {
      assert a[i] in b;
      var j :| 0 <= j < |b| && b[j] == a[i];
      assert Ids(b)[j] == Ids(a)[i] == Ids(b)[i];
      LessIrreflexive(Ids(b)[i]);
    }
  }

  lemma IdComesFromRow(a: seq<Row>, b: seq<Row>, id: string)
    requires forall r :: r in a <==> r in b
    ensures id in Ids(a) ==> id in Ids(b)
  {
    if id in Ids(a) {
      var i :| 0 <= i < |a| && Ids(a)[i] == id;
      assert a[i] in b;
      var j :| 0 <= j < |b| && b[j] == a[i];
      assert Ids(b)[j] == id;
    }
  }
}
