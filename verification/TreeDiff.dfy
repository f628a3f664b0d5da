/**
 The canonical diff of two Git trees, without rename detection: a header, then one
 row per changed path in path order. The bytes determine the changes.
 */
module TreeDiff {
  import opened Basics
  import Utf8

  datatype Entry = Entry(mode: string, sha: string)
  datatype Kind = Blob | Commit | Other

  /** One item of a tree response; None where the field is missing or no string. */
  datatype Item = Item(kind: Kind, path: Option<string>, mode: Option<string>, sha: Option<string>)
  datatype Response = Response(truncated: bool, items: Option<seq<Item>>)

  type Tree = map<string, Entry>

  const HEADER := "server-sentinel-no-renames-tree-diff-v1\n"
  const NUL: char := '\0'

  ghost predicate OctalMode(s: string) {
    |s| == 6 && forall i :: 0 <= i < 6 ==> '0' <= s[i] <= '7'
  }

  ghost predicate HexSha(s: string) {
    |s| == 40 && forall i :: 0 <= i < 40 ==> '0' <= s[i] <= '9' || 'a' <= s[i] <= 'f'
  }

  ghost predicate PathOk(path: string) {
    path != "" && NUL !in path
  }

  ghost predicate EntryOk(e: Entry) {
    OctalMode(e.mode) && HexSha(e.sha)
  }

  ghost predicate Tracked(item: Item) {
    item.kind == Blob || item.kind == Commit
  }

  ghost predicate ItemOk(item: Item) {
    && item.path.Some? && PathOk(item.path.value)
    && item.mode.Some? && item.sha.Some? && EntryOk(Entry(item.mode.value, item.sha.value))
  }

  /** Some item of the response gives the path this entry. */
  ghost predicate Lists(items: seq<Item>, path: string, e: Entry) {
    exists i :: 0 <= i < |items| && Tracked(items[i]) && items[i].path == Some(path)
                && items[i].mode == Some(e.mode) && items[i].sha == Some(e.sha)
  }

  /** Every tracked item is well formed and no path comes twice. */
  ghost predicate ItemsOk(items: seq<Item>) {
    && (forall i :: 0 <= i < |items| && Tracked(items[i]) ==> ItemOk(items[i]))
    && (forall i, j :: 0 <= i < j < |items| && Tracked(items[i]) && Tracked(items[j]) ==> items[i].path != items[j].path)
  }

  ghost predicate Complete(r: Response) {
    !r.truncated && r.items.Some? && ItemsOk(r.items.value)
  }

  ghost predicate TreeOk(t: Tree) {
    forall path :: path in t ==> PathOk(path) && EntryOk(t[path])
  }

  /** The tree holds exactly the entries the items list. */
  ghost predicate Holds(items: seq<Item>, t: Tree) {
    && TreeOk(t)
    && (forall path :: path in t ==> Lists(items, path, t[path]))
    && (forall path, e :: Lists(items, path, e) ==> path in t && t[path] == e)
  }

  // ---------- reading a tree response ----------

  lemma ListsMore(items: seq<Item>, n: nat, path: string, e: Entry)
    requires n < |items|
    ensures Lists(items[..n + 1], path, e) <==>
            Lists(items[..n], path, e)
            || (Tracked(items[n]) && items[n].path == Some(path) && items[n].mode == Some(e.mode) && items[n].sha == Some(e.sha))
  {
    var more, less := items[..n + 1], items[..n];
    if Lists(less, path, e) {
      var i :| 0 <= i < |less| && Tracked(less[i]) && less[i].path == Some(path)
               && less[i].mode == Some(e.mode) && less[i].sha == Some(e.sha);
      assert more[i] == less[i];
    }
    if Lists(more, path, e) {
      var i :| 0 <= i < |more| && Tracked(more[i]) && more[i].path == Some(path)
               && more[i].mode == Some(e.mode) && more[i].sha == Some(e.sha);
      assert i < n ==> more[i] == less[i];
    }
    assert more[n] == items[n];
  }

  lemma HoldsMore(items: seq<Item>, n: nat, t: Tree)
    requires n < |items| && Holds(items[..n], t)
    ensures !Tracked(items[n]) ==> Holds(items[..n + 1], t)
    ensures Tracked(items[n]) && ItemOk(items[n]) && items[n].path.value !in t ==>
            Holds(items[..n + 1], t[items[n].path.value := Entry(items[n].mode.value, items[n].sha.value)])
  {
    var item := items[n];
    var more := items[..n + 1];
    forall path, e
      ensures Lists(more, path, e) <==>
              Lists(items[..n], path, e)
              || (Tracked(item) && item.path == Some(path) && item.mode == Some(e.mode) && item.sha == Some(e.sha))
    {
      ListsMore(items, n, path, e);
    }
    hide Lists, EntryOk, PathOk;
    if Tracked(item) && ItemOk(item) && item.path.value !in t {
      var e := Entry(item.mode.value, item.sha.value);
      assert Lists(more, item.path.value, e);
      assert Holds(more, t[item.path.value := e]);
    }
  }

  lemma RepeatedPath(items: seq<Item>, n: nat, t: Tree)
    requires n < |items| && Holds(items[..n], t) && Tracked(items[n]) && items[n].path.Some? && items[n].path.value in t
    ensures !ItemsOk(items)
  {
    var path := items[n].path.value;
    var less := items[..n];
    assert Lists(less, path, t[path]);
    var i :| 0 <= i < |less| && Tracked(less[i]) && less[i].path == Some(path);
    assert items[i] == less[i];
  }

  lemma NewPath(items: seq<Item>, n: nat, t: Tree)
    requires n < |items| && Holds(items[..n], t) && ItemsOk(items[..n])
    requires Tracked(items[n]) ==> ItemOk(items[n]) && items[n].path.value !in t
    ensures ItemsOk(items[..n + 1])
  {
    hide ItemOk;
    var more, less := items[..n + 1], items[..n];
    forall i | 0 <= i < n
      ensures more[i] == less[i] && (Tracked(more[i]) && Tracked(items[n]) ==> more[i].path != items[n].path)
    {
      if Tracked(less[i]) && Tracked(items[n]) && less[i].path == items[n].path {
        AlreadyHeld(less, t, i);
        assert false;
      }
    }
  }

  lemma AlreadyHeld(items: seq<Item>, t: Tree, i: nat)
    requires i < |items| && Holds(items, t) && ItemsOk(items) && Tracked(items[i])
    ensures items[i].path.Some? && items[i].path.value in t
  {
    assert Lists(items, items[i].path.value, Entry(items[i].mode.value, items[i].sha.value));
  }

  /** A full match of so many characters of a class. */
  method FullMatch(s: string, alphabet: string, count: nat) returns (matches: bool)
    ensures matches <==> |s| == count && forall i :: 0 <= i < |s| ==> s[i] in alphabet
  {
    for i := 0 to |s|
      invariant forall k :: 0 <= k < i ==> s[k] in alphabet
    {
      if s[i] !in alphabet {
        return false;
      }
    }
    return |s| == count;
  }

  lemma OctalDigits(c: char)
    ensures c in "01234567" <==> '0' <= c <= '7'
  {
    var all := "01234567";
    assert '0' <= c <= '7' ==> all[c as int - '0' as int] == c;
  }

  lemma HexDigits(c: char)
    ensures c in "0123456789abcdef" <==> '0' <= c <= '9' || 'a' <= c <= 'f'
  {
    var all := "0123456789abcdef";
    assert '0' <= c <= '9' ==> all[c as int - '0' as int] == c;
    assert 'a' <= c <= 'f' ==> all[c as int - 'a' as int + 10] == c;
  }

  method CheckItem(item: Item) returns (ok: bool)
    ensures ok <==> ItemOk(item)
  {
    forall c: char
      ensures c in "01234567" <==> '0' <= c <= '7'
      ensures c in "0123456789abcdef" <==> '0' <= c <= '9' || 'a' <= c <= 'f'
    {
      OctalDigits(c);
      HexDigits(c);
    }
    if item.path.None? || item.path.value == "" || NUL in item.path.value || item.mode.None? || item.sha.None? {
      return false;
    }
    var octal := FullMatch(item.mode.value, "01234567", 6);
    var hex := FullMatch(item.sha.value, "0123456789abcdef", 40);
    return octal && hex;
  }

  /** Refuse an incomplete response, a malformed item or a repeated path; skip items that are not tracked. */
  method ReadTree(r: Response) returns (t: Option<Tree>)
    ensures t.Some? <==> Complete(r)
    ensures t.Some? ==> Holds(r.items.value, t.value)
  {
    hide ItemsOk, Holds, ItemOk;
    if r.truncated || r.items.None? {
      return None;
    }
    var items := r.items.value;
    var result: Tree := map[];
    var n := 0;
    EmptyTree(items);
    while n < |items|
      invariant n <= |items| && Holds(items[..n], result) && ItemsOk(items[..n])
    {
      var item := items[n];
      HoldsMore(items, n, result);
      var tracked := item.kind in {Blob, Commit};
      if tracked {
        var fine := CheckItem(item);
        if !fine {
          BadItem(items, n);
          return None;
        }
        ItemFields(item);
        if item.path.value in result {
          RepeatedPath(items, n, result);
          return None;
        }
      }
      NewPath(items, n, result);
      if tracked {
        result := result[item.path.value := Entry(item.mode.value, item.sha.value)];
      }
      n := n + 1;
    }
    assert items[..n] == items;
    return Some(result);
  }

  lemma EmptyTree(items: seq<Item>)
    ensures Holds(items[..0], map[]) && ItemsOk(items[..0])
  {
  }

  lemma BadItem(items: seq<Item>, n: nat)
    requires n < |items| && Tracked(items[n]) && !ItemOk(items[n])
    ensures !ItemsOk(items)
  {
  }

  lemma ItemFields(item: Item)
    requires ItemOk(item)
    ensures item.path.Some? && item.mode.Some? && item.sha.Some?
  {
  }

  // ---------- what changed ----------

  datatype Row = Row(path: string, was: Option<Entry>, now: Option<Entry>)

  function Get(t: Tree, path: string): Option<Entry> {
    if path in t then Some(t[path]) else None
  }

  /** The changed paths, each with its entry before and after. */
  ghost function Changed(before: Tree, after: Tree): set<Row> {
    set path | path in before.Keys + after.Keys && Get(before, path) != Get(after, path)
      :: Row(path, Get(before, path), Get(after, path))
  }

  lemma NothingChanged(before: Tree, after: Tree)
    ensures Changed(before, after) == {} <==> before == after
  {
    if Changed(before, after) == {} {
      forall path | path in before.Keys + after.Keys
        ensures Get(before, path) == Get(after, path)
      {
        assert Get(before, path) != Get(after, path) ==> Row(path, Get(before, path), Get(after, path)) in Changed(before, after);
      }
      assert before.Keys == after.Keys by {
        forall path | path in before.Keys + after.Keys
          ensures path in before && path in after
        {
          assert Get(before, path) == Get(after, path);
        }
      }
      assert forall path :: path in before ==> Get(before, path) == Get(after, path);
      assert before == after;
    }
  }

  /** A tree and the changes to it give the other tree. */
  lemma ChangesRecover(before: Tree, after: Tree, other: Tree)
    requires Changed(before, after) == Changed(before, other)
    ensures after == other
  {
    forall path
      ensures Get(after, path) == Get(other, path)
    {
      ChangeSeen(before, after, other, path);
      ChangeSeen(before, other, after, path);
    }
    assert forall path :: path in after <==> Get(after, path).Some?;
    assert forall path :: path in other <==> Get(other, path).Some?;
    assert forall path :: path in after ==> Get(after, path) == Some(after[path]);
  }

  lemma ChangeSeen(before: Tree, after: Tree, other: Tree, path: string)
    requires Changed(before, after) == Changed(before, other)
    ensures Get(before, path) != Get(after, path) ==> Get(after, path) == Get(other, path)
  {
    var row := Row(path, Get(before, path), Get(after, path));
    assert Get(before, path) != Get(after, path) ==> row in Changed(before, after);
    assert row in Changed(before, other) ==> Get(after, path) == Get(other, path);
  }

  // ---------- path order ----------

  /** Code point order, as the source sorts text. */
  predicate Below(a: string, b: string) {
    b != "" && (a == "" || a[0] < b[0] || (a[0] == b[0] && Below(a[1..], b[1..])))
  }

  /** The texts agree up to an index where the lower one has ended or has the smaller code point. */
  ghost predicate DiffersAt(a: string, b: string, i: nat) {
    i <= |a| && i < |b| && a[..i] == b[..i] && (i == |a| || a[i] as int < b[i] as int)
  }

  lemma {:induction false} BelowAtDifference(a: string, b: string)
    ensures Below(a, b) <==> exists i: nat :: DiffersAt(a, b, i)
    decreases |a|
  {
    if a == "" || b == "" || a[0] != b[0] {
      assert b != "" && (a == "" || a[0] < b[0]) ==> DiffersAt(a, b, 0);
      if i: nat :| DiffersAt(a, b, i) {
        AgreesBefore(a, b, i);
      }
    } else {
      BelowAtDifference(a[1..], b[1..]);
      forall i: nat
        ensures DiffersAt(a[1..], b[1..], i) <==> DiffersAt(a, b, i + 1)
      {
        DifferenceShifts(a, b, i);
      }
      if i: nat :| DiffersAt(a, b, i) {
        assert DiffersAt(a[1..], b[1..], i - 1);
      }
    }
  }

  lemma AgreesBefore(a: string, b: string, i: nat)
    requires DiffersAt(a, b, i)
    ensures i > 0 ==> a[0] == b[0]
  {
    if i > 0 {
      assert a[..i][0] == a[0] && b[..i][0] == b[0];
    }
  }

  lemma DifferenceShifts(a: string, b: string, i: nat)
    requires a != "" && b != "" && a[0] == b[0]
    ensures DiffersAt(a[1..], b[1..], i) <==> DiffersAt(a, b, i + 1)
  {
    if i + 1 <= |a| && i + 1 <= |b| {
      assert a[..i + 1] == [a[0]] + a[1..][..i] && b[..i + 1] == [b[0]] + b[1..][..i];
    }
  }

  lemma {:induction false} BelowTransitive(a: string, b: string, c: string)
    requires Below(a, b) && Below(b, c)
    ensures Below(a, c)
    decreases |a|
  {
    if a != "" && a[0] == b[0] == c[0] {
      BelowTransitive(a[1..], b[1..], c[1..]);
    }
  }

  lemma {:induction false} BelowOneWay(a: string, b: string)
    ensures !(Below(a, b) && Below(b, a))
    ensures a != b ==> Below(a, b) || Below(b, a)
    decreases |a|
  {
    if a != "" && b != "" && a[0] == b[0] {
      BelowOneWay(a[1..], b[1..]);
      assert a[1..] == b[1..] ==> a == [a[0]] + a[1..] == [b[0]] + b[1..] == b;
    }
  }

  ghost predicate Ascending(paths: seq<string>) {
    forall i, j :: 0 <= i < j < |paths| ==> Below(paths[i], paths[j])
  }

  /** Where a path belongs in an ascending list. */
  method Place(paths: seq<string>, path: string) returns (k: nat)
    requires Ascending(paths) && path !in paths
    ensures k <= |paths|
    ensures forall i :: 0 <= i < k ==> Below(paths[i], path)
    ensures forall i :: k <= i < |paths| ==> Below(path, paths[i])
  {
    hide Below;
    k := 0;
    while k < |paths| && Below(paths[k], path)
      invariant k <= |paths|
      invariant forall i :: 0 <= i < k ==> Below(paths[i], path)
    {
      k := k + 1;
    }
    forall i | k <= i < |paths|
      ensures Below(path, paths[i])
    {
      BelowOneWay(path, paths[k]);
      if k < i {
        BelowTransitive(path, paths[k], paths[i]);
      }
    }
  }

  method SortPaths(paths: set<string>) returns (r: seq<string>)
    ensures Ascending(r) && forall p :: p in r <==> p in paths
  {
    hide Below;
    r := [];
    var rest := paths;
    while true
      invariant rest <= paths && Ascending(r) && forall p :: p in r <==> p in paths - rest
      decreases |rest|
    {
      if p :| p in rest {
        var k := Place(r, p);
        var more := r[..k] + [p] + r[k..];
        assert forall x :: x in more <==> x in r || x == p by {
          assert r == r[..k] + r[k..];
        }
        r, rest := more, rest - {p};
      } else {
        assert rest == {};
        return;
      }
    }
  }

  // ---------- the text ----------

  ghost predicate RowOk(r: Row) {
    PathOk(r.path) && (r.was.Some? ==> EntryOk(r.was.value)) && (r.now.Some? ==> EntryOk(r.now.value))
  }

  /** A missing entry is written as dashes. */
  function Shown(e: Option<Entry>): Entry {
    if e.None? then Entry("-", "-") else e.value
  }

  function RowText(r: Row): string {
    r.path + [NUL] + Shown(r.was).mode + [NUL] + Shown(r.was).sha + [NUL]
    + Shown(r.now).mode + [NUL] + Shown(r.now).sha + "\n"
  }

  function RowsText(rows: seq<Row>): string {
    if rows == [] then "" else RowText(rows[0]) + RowsText(rows[1..])
  }

  function DiffBytes(rows: seq<Row>): seq<Byte> {
    Utf8.Encode(HEADER + RowsText(rows))
  }

  lemma {:induction false} RowsTextAppend(rows: seq<Row>, r: Row)
    ensures RowsText(rows + [r]) == RowsText(rows) + RowText(r)
    decreases |rows|
  {
    if rows == [] {
      assert [r][1..] == [];
    } else {
      RowsTextAppend(rows[1..], r);
      assert (rows + [r])[1..] == rows[1..] + [r];
    }
  }

  /** A field ends at its first separator. */
  lemma FieldEnds(a: string, b: string, sep: char, x: string, y: string)
    requires sep !in a && sep !in b && a + ([sep] + x) == b + ([sep] + y)
    ensures a == b && x == y
  {
    var s, t := a + ([sep] + x), b + ([sep] + y);
    assert s[|a|] == sep && t[|b|] == sep;
    assert forall k :: 0 <= k < |a| ==> s[k] == a[k] && s[k] != sep;
    assert forall k :: 0 <= k < |b| ==> t[k] == b[k] && t[k] != sep;
    assert |a| == |b|;
    assert a == s[..|a|] && b == t[..|a|] && x == s[|a| + 1..] && y == t[|a| + 1..];
  }

  /** Modes and object names are plain: no separator, and never a dash alone. */
  lemma PlainEntry(e: Option<Entry>)
    requires e.Some? ==> EntryOk(e.value)
    ensures NUL !in Shown(e).mode && NUL !in Shown(e).sha && '\n' !in Shown(e).sha
    ensures e.Some? ==> Shown(e).mode != "-"
  {
  }

  lemma ShownInjective(d: Option<Entry>, e: Option<Entry>)
    requires (d.Some? ==> EntryOk(d.value)) && (e.Some? ==> EntryOk(e.value)) && Shown(d) == Shown(e)
    ensures d == e
  {
    PlainEntry(d);
    PlainEntry(e);
  }

  lemma RowNested(r: Row, rest: string)
    ensures RowText(r) + rest
            == r.path + ([NUL] + (Shown(r.was).mode + ([NUL] + (Shown(r.was).sha + ([NUL]
               + (Shown(r.now).mode + ([NUL] + (Shown(r.now).sha + (['\n'] + rest)))))))))
  {
    hide Shown;
  }

  /** A row can be read off the front of any text: paths may hold newlines, since NUL ends them. */
  lemma RowReadsBack(q: Row, r: Row, x: string, y: string)
    requires RowOk(q) && RowOk(r) && RowText(q) + x == RowText(r) + y
    ensures q == r && x == y
  {
    RowNested(q, x);
    RowNested(r, y);
    PlainEntry(q.was);
    PlainEntry(q.now);
    PlainEntry(r.was);
    PlainEntry(r.now);
    hide RowText, Shown, EntryOk;
    var a, b, c, d := Shown(q.was), Shown(r.was), Shown(q.now), Shown(r.now);
    var x4, y4 := c.sha + (['\n'] + x), d.sha + (['\n'] + y);
    var x3, y3 := c.mode + ([NUL] + x4), d.mode + ([NUL] + y4);
    var x2, y2 := a.sha + ([NUL] + x3), b.sha + ([NUL] + y3);
    FieldEnds(q.path, r.path, NUL, a.mode + ([NUL] + x2), b.mode + ([NUL] + y2));
    FieldEnds(a.mode, b.mode, NUL, x2, y2);
    FieldEnds(a.sha, b.sha, NUL, x3, y3);
    FieldEnds(c.mode, d.mode, NUL, x4, y4);
    FieldEnds(c.sha, d.sha, '\n', x, y);
    ShownInjective(q.was, r.was);
    ShownInjective(q.now, r.now);
  }

  lemma {:induction false} RowsReadBack(rows: seq<Row>, others: seq<Row>)
    requires (forall r :: r in rows ==> RowOk(r)) && (forall r :: r in others ==> RowOk(r))
    requires RowsText(rows) == RowsText(others)
    ensures rows == others
    decreases |rows|
  {
    hide RowOk, RowText;
    if rows != [] && others != [] {
      RowReadsBack(rows[0], others[0], RowsText(rows[1..]), RowsText(others[1..]));
      RowsReadBack(rows[1..], others[1..]);
      assert rows == [rows[0]] + rows[1..] && others == [others[0]] + others[1..];
    } else {
      RowNotEmpty(rows);
      RowNotEmpty(others);
    }
  }

  lemma SomeRow(rows: seq<Row>)
    ensures rows != [] ==> exists r :: r in rows
  {
    assert rows != [] ==> rows[0] in rows;
  }

  lemma RowNotEmpty(rows: seq<Row>)
    ensures rows != [] ==> RowsText(rows) != ""
  {
  }

  // ---------- the diff ----------

  /** The changed rows in ascending path order. */
  ghost predicate Listed(rows: seq<Row>, before: Tree, after: Tree) {
    && (forall i, j :: 0 <= i < j < |rows| ==> Below(rows[i].path, rows[j].path))
    && (forall r :: r in rows <==> r in Changed(before, after))
  }

  ghost predicate IsDiff(bytes: seq<Byte>, before: Tree, after: Tree) {
    exists rows :: Listed(rows, before, after) && bytes == DiffBytes(rows)
  }

  lemma ListedRowsOk(rows: seq<Row>, before: Tree, after: Tree)
    requires TreeOk(before) && TreeOk(after) && Listed(rows, before, after)
    ensures forall r :: r in rows ==> RowOk(r)
  {
  }

  /** An ascending listing is determined by what it lists. */
  lemma {:induction false} OneListing(rows: seq<Row>, others: seq<Row>)
    requires forall i, j :: 0 <= i < j < |rows| ==> Below(rows[i].path, rows[j].path)
    requires forall i, j :: 0 <= i < j < |others| ==> Below(others[i].path, others[j].path)
    requires forall r :: r in rows <==> r in others
    ensures rows == others
    decreases |rows|
  {
    hide Below;
    if rows == [] {
      SomeRow(others);
    } else {
      assert rows[0] in others;
      var i :| 0 <= i < |others| && others[i] == rows[0];
      assert others[0] in rows;
      var j :| 0 <= j < |rows| && rows[j] == others[0];
      BelowOneWay(rows[0].path, others[0].path);
      assert i == 0;
      forall r
        ensures r in rows[1..] <==> r in others[1..]
      {
        TailMember(rows, r);
        TailMember(others, r);
      }
      OneListing(rows[1..], others[1..]);
      assert rows == [rows[0]] + rows[1..] && others == [others[0]] + others[1..];
    }
  }

  lemma TailMember(rows: seq<Row>, r: Row)
    requires rows != [] && forall i, j :: 0 <= i < j < |rows| ==> Below(rows[i].path, rows[j].path)
    ensures r in rows[1..] <==> r in rows && r != rows[0]
  {
    hide Below;
    assert rows == [rows[0]] + rows[1..];
    BelowOneWay(r.path, r.path);
    if r in rows[1..] {
      var j :| 0 <= j < |rows[1..]| && rows[1..][j] == r;
      assert Below(rows[0].path, rows[j + 1].path);
    }
  }

  /** Two tree pairs give the same bytes exactly when they changed the same way. */
  lemma SameBytesSameChanges(x: seq<Byte>, before: Tree, after: Tree, y: seq<Byte>, before': Tree, after': Tree)
    requires TreeOk(before) && TreeOk(after) && IsDiff(x, before, after)
    requires TreeOk(before') && TreeOk(after') && IsDiff(y, before', after')
    ensures x == y <==> Changed(before, after) == Changed(before', after')
  {
    hide TreeOk, Changed, RowsText, RowOk;
    var rows :| Listed(rows, before, after) && x == DiffBytes(rows);
    var others :| Listed(others, before', after') && y == DiffBytes(others);
    if Changed(before, after) == Changed(before', after') {
      OneListing(rows, others);
    }
    if x == y {
      Utf8.EncodeInjective(HEADER + RowsText(rows), HEADER + RowsText(others));
      assert RowsText(rows) == (HEADER + RowsText(rows))[|HEADER|..] == (HEADER + RowsText(others))[|HEADER|..] == RowsText(others);
      ListedRowsOk(rows, before, after);
      ListedRowsOk(others, before', after');
      RowsReadBack(rows, others);
      assert forall r :: r in Changed(before, after) <==> r in rows;
      assert Changed(before, after) == Changed(before', after');
    }
  }

  /** Nothing but the header is left exactly when the trees are equal. */
  lemma HeaderOnly(x: seq<Byte>, before: Tree, after: Tree)
    requires IsDiff(x, before, after)
    ensures x == Utf8.Encode(HEADER) <==> before == after
  {
    hide Changed, RowsText, HEADER, Utf8.Encode;
    var rows :| Listed(rows, before, after) && x == DiffBytes(rows);
    NothingChanged(before, after);
    RowNotEmpty(rows);
    EmptyText();
    assert HEADER + "" == HEADER;
    if x == Utf8.Encode(HEADER) {
      Utf8.EncodeInjective(HEADER + RowsText(rows), HEADER);
      assert |HEADER + RowsText(rows)| == |HEADER| + |RowsText(rows)|;
      assert rows == [];
      assert Changed(before, after) == {};
    }
    if before == after {
      SomeRow(rows);
    }
  }

  lemma EmptyText()
    ensures RowsText([]) == ""
  {
  }

  /** One tree and the bytes determine the other tree. */
  lemma BytesRecoverTree(x: seq<Byte>, before: Tree, after: Tree, after': Tree)
    requires TreeOk(before) && TreeOk(after) && TreeOk(after')
    requires IsDiff(x, before, after) && IsDiff(x, before, after')
    ensures after == after'
  {
    hide TreeOk, IsDiff, Changed;
    SameBytesSameChanges(x, before, after, x, before, after');
    ChangesRecover(before, after, after');
  }

  /** The rows among the first n paths. */
  ghost predicate ListedSoFar(rows: seq<Row>, before: Tree, after: Tree, paths: seq<string>, n: nat)
    requires n <= |paths|
  {
    && (forall i, j :: 0 <= i < j < |rows| ==> Below(rows[i].path, rows[j].path))
    && (forall r :: r in rows <==> r in Changed(before, after) && r.path in paths[..n])
  }

  lemma ListedMore(rows: seq<Row>, before: Tree, after: Tree, paths: seq<string>, n: nat)
    requires n < |paths| && Ascending(paths) && ListedSoFar(rows, before, after, paths, n)
    ensures var p := paths[n];
            ListedSoFar(if Get(before, p) == Get(after, p) then rows else rows + [Row(p, Get(before, p), Get(after, p))],
                        before, after, paths, n + 1)
  {
    var p := paths[n];
    assert paths[..n + 1] == paths[..n] + [p];
    forall i | 0 <= i < |rows|
      ensures Below(rows[i].path, p)
    {
      assert rows[i] in rows;
      assert rows[i].path in paths[..n];
    }
    hide Below;
    assert forall r :: r in Changed(before, after) && r.path == p ==>
      Get(before, p) != Get(after, p) && r == Row(p, Get(before, p), Get(after, p));
    var row := Row(p, Get(before, p), Get(after, p));
    assert Get(before, p) != Get(after, p) ==> row in Changed(before, after);
  }

  lemma ListedAll(rows: seq<Row>, before: Tree, after: Tree, paths: seq<string>)
    requires ListedSoFar(rows, before, after, paths, |paths|)
    requires forall p :: p in paths <==> p in before.Keys + after.Keys
    ensures Listed(rows, before, after)
  {
    assert paths[..|paths|] == paths;
  }

  method CanonicalDiff(base: Response, head: Response) returns (r: Option<seq<Byte>>)
    ensures r.Some? <==> Complete(base) && Complete(head)
    ensures r.Some? ==> exists before, after ::
              Holds(base.items.value, before) && Holds(head.items.value, after) && IsDiff(r.value, before, after)
  {
    hide Complete, Holds, IsDiff;
    var before := ReadTree(base);
    if before.None? {
      return None;
    }
    var after := ReadTree(head);
    if after.None? {
      return None;
    }
    var bytes := EncodeChanges(before.value, after.value);
    return Some(bytes);
  }

  method EncodeChanges(before: Tree, after: Tree) returns (bytes: seq<Byte>)
    ensures IsDiff(bytes, before, after)
  {
    hide RowsText, RowText, Listed, Utf8.Encode, Ascending, Changed, ListedSoFar, Get, Concat;
    var paths := SortPaths(before.Keys + after.Keys);
    var rows := [Utf8.Encode(HEADER)];
    ghost var changed: seq<Row> := [];
    NothingYet(before, after, paths);
    var i := 0;
    while i < |paths|
      invariant i <= |paths| && ListedSoFar(changed, before, after, paths, i) && Concat(rows) == DiffBytes(changed)
    {
      var path := paths[i];
      ListedMore(changed, before, after, paths, i);
      var was, now := Get(before, path), Get(after, path);
      if was != now {
        var row := Row(path, was, now);
        ConcatAppend(rows, Utf8.Encode(RowText(row)));
        OneMoreRow(changed, row);
        rows := rows + [Utf8.Encode(RowText(row))];
        changed := changed + [row];
      }
      i := i + 1;
    }
    ListedAll(changed, before, after, paths);
    return Concat(rows);
  }

  lemma NothingYet(before: Tree, after: Tree, paths: seq<string>)
    ensures ListedSoFar([], before, after, paths, 0) && Concat([Utf8.Encode(HEADER)]) == DiffBytes([])
  {
    hide HEADER, Utf8.Encode;
    assert [Utf8.Encode(HEADER)][1..] == [];
    assert HEADER + RowsText([]) == HEADER;
  }

  lemma OneMoreRow(changed: seq<Row>, row: Row)
    ensures DiffBytes(changed + [row]) == DiffBytes(changed) + Utf8.Encode(RowText(row))
  {
    hide RowsText, RowText, Utf8.Encode;
    RowsTextAppend(changed, row);
    assert HEADER + RowsText(changed + [row]) == HEADER + RowsText(changed) + RowText(row);
    Utf8.EncodeAppend(HEADER + RowsText(changed), RowText(row));
  }
}
