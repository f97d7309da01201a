/** The value a bulk edit writes into each targeted note
    (src/fields/base/BaseModal.ts): parsing a list-valued field and combining
    the current and the new values under one of four modes. */
module BulkEdit {
  import opened JsText

  datatype BulkEditMode = Overwrite | Append | Remove | Clear

  /** The title word shown for each mode. */
  function ModeLabel(mode: BulkEditMode): (title: string)
    ensures |title| > 0
  {
    match mode
    case Overwrite => "Overwrite"
    case Append => "Append to"
    case Remove => "Remove from"
    case Clear => "Clear"
  }

  lemma ModeLabelInjective(a: BulkEditMode, b: BulkEditMode)
    requires ModeLabel(a) == ModeLabel(b)
    ensures a == b
  {
  }

  /** A field value as parseListValue receives it: a falsy value (undefined,
      null, false, 0), any other scalar by its string form, or an array whose
      elements are given by their string forms. */
  datatype RawValue = Missing | Text(text: string) | Items(items: seq<string>)

  predicate IsFalsy(v: RawValue) {
    v.Missing? || v == Text("")
  }

  /** Every element non-empty and trimmed. */
  predicate Clean(xs: seq<string>) {
    forall x :: x in xs ==> x != "" && IsTrimmed(x)
  }

  predicate NoCommas(xs: seq<string>) {
    forall x :: x in xs ==> ',' !in x
  }

  /** `.map(v => v.trim())`. */
  function TrimAll(xs: seq<string>): (r: seq<string>)
    ensures |r| == |xs|
  {
    seq(|xs|, k requires 0 <= k < |xs| => Trim(xs[k]))
  }

  /** Element k of the result is element k of the input, trimmed. */
  lemma TrimAllAt(xs: seq<string>)
    ensures forall k :: 0 <= k < |xs| ==> TrimAll(xs)[k] == Trim(xs[k])
  {
  }

  /** `xs` without the elements listed in `drop`, in their original order;
      `.filter(v => !drop.includes(v))`, and `.filter(Boolean)` when `drop`
      is `[""]`. */
  function Without(xs: seq<string>, drop: seq<string>): (r: seq<string>)
    ensures forall x :: x in r <==> x in xs && x !in drop
  {
    if xs == [] then []
    else
      var rest := Without(xs[1..], drop);
      assert xs == [xs[0]] + xs[1..];
      if xs[0] in drop then rest else [xs[0]] + rest
  }

  /** Each kept value keeps its multiplicity; each dropped one is gone. */
  lemma {:induction false} WithoutCounts(xs: seq<string>, drop: seq<string>, x: string)
    ensures multiset(Without(xs, drop))[x] == if x in drop then 0 else multiset(xs)[x]
  {
    if xs != [] {
      WithoutCounts(xs[1..], drop, x);
      assert xs == [xs[0]] + xs[1..];
    }
  }

  /** Filtering commutes with concatenation, so the kept values stay in the
      order they had. */
  lemma {:induction false} WithoutConcat(a: seq<string>, b: seq<string>, drop: seq<string>)
    ensures Without(a + b, drop) == Without(a, drop) + Without(b, drop)
  {
    if a != [] {
      assert (a + b)[1..] == a[1..] + b;
      assert (a + b)[0] == a[0];
      WithoutConcat(a[1..], b, drop);
      if a[0] !in drop {
        assert Without(a + b, drop) == [a[0]] + (Without(a[1..], drop) + Without(b, drop));
      }
    } else {
      assert a + b == b;
    }
  }

  /** The pieces parseListValue trims: the array's elements, or the string
      split at each ",". */
  function Pieces(v: RawValue): seq<string> {
    match v
    case Missing => []
    case Text(s) => Split(s, ',')
    case Items(items) => items
  }

  /** parseListValue: a falsy value gives no values; otherwise the array
      elements, or the comma-separated pieces of the string, trimmed, with
      the empty ones dropped. */
  function ParseListValue(v: RawValue): (r: seq<string>)
    ensures IsFalsy(v) ==> r == []
    ensures Clean(r)
    ensures v.Text? ==> NoCommas(r)
  {
    if IsFalsy(v) then []
    else
      TrimAllClean(Pieces(v));
      Without(TrimAll(Pieces(v)), [""])
  }

  /** A value comes out of parseListValue exactly when it is a non-empty
      trimmed piece of a truthy input. */
  lemma ParseListMembers(v: RawValue, x: string)
    ensures x in ParseListValue(v) <==>
      !IsFalsy(v) && x != "" && exists k :: 0 <= k < |Pieces(v)| && Trim(Pieces(v)[k]) == x
  {
    if !IsFalsy(v) {
      assert ParseListValue(v) == Without(TrimAll(Pieces(v)), [""]);
      TrimmedPieceMembers(Pieces(v), x);
    }
  }

  lemma TrimmedPieceMembers(p: seq<string>, x: string)
    ensures x in Without(TrimAll(p), [""]) <==> x != "" && exists k :: 0 <= k < |p| && Trim(p[k]) == x
  {
    var t := TrimAll(p);
    if x in t {
      var k :| 0 <= k < |t| && t[k] == x;
      assert Trim(p[k]) == x;
    }
    if exists k :: 0 <= k < |p| && Trim(p[k]) == x {
      var k :| 0 <= k < |p| && Trim(p[k]) == x;
      assert t[k] == x;
    }
  }

  /** The values of an array come out in the order of its elements: parsing
      distributes over concatenation, and one element gives its trimmed form
      unless that is empty. With ParseTextItems this fixes parseListValue
      on every input. */
  lemma ParseItemsConcat(a: seq<string>, b: seq<string>)
    ensures ParseListValue(Items(a + b)) == ParseListValue(Items(a)) + ParseListValue(Items(b))
  {
    assert ParseListValue(Items(a + b)) == Without(TrimAll(a + b), [""]);
    assert ParseListValue(Items(a)) == Without(TrimAll(a), [""]);
    assert ParseListValue(Items(b)) == Without(TrimAll(b), [""]);
    TrimAllConcat(a, b);
    WithoutConcat(TrimAll(a), TrimAll(b), [""]);
  }

  lemma TrimAllConcat(a: seq<string>, b: seq<string>)
    ensures TrimAll(a + b) == TrimAll(a) + TrimAll(b)
  {
    var l, r := TrimAll(a + b), TrimAll(a) + TrimAll(b);
    forall k | 0 <= k < |l| ensures l[k] == r[k] {
      if k < |a| {
        assert (a + b)[k] == a[k];
      } else {
        assert (a + b)[k] == b[k - |a|];
      }
    }
  }

  lemma ParseItemsSingle(x: string)
    ensures ParseListValue(Items([x])) == if Trim(x) == "" then [] else [Trim(x)]
  {
    var t := TrimAll([x]);
    assert t == [Trim(x)];
    assert t[1..] == [];
    assert ParseListValue(Items([x])) == Without(t, [""]);
  }

  /** A non-empty string parses as the array of its comma-separated pieces. */
  lemma ParseTextItems(s: string)
    requires s != ""
    ensures ParseListValue(Text(s)) == ParseListValue(Items(Split(s, ',')))
  {
  }

  lemma TrimAllClean(pieces: seq<string>)
    ensures Clean(Without(TrimAll(pieces), [""]))
    ensures NoCommas(pieces) ==> NoCommas(Without(TrimAll(pieces), [""]))
  {
    var t := TrimAll(pieces);
    var r := Without(t, [""]);
    forall x | x in r ensures x != "" && IsTrimmed(x) && (NoCommas(pieces) ==> ',' !in x) {
      var j :| 0 <= j < |t| && t[j] == x;
      TrimSubset(pieces[j]);
    }
  }

  /** Position of the first occurrence of `x` in `xs`. */
  function FirstIndex(xs: seq<string>, x: string): (i: nat)
    requires x in xs
    ensures i < |xs| && xs[i] == x
    ensures forall k :: 0 <= k < i ==> xs[k] != x
  {
    if xs[0] == x then 0 else FirstIndex(xs[1..], x) + 1
  }

  lemma FirstIndexExtend(xs: seq<string>, y: string)
    ensures forall z :: z in xs ==> FirstIndex(xs + [y], z) == FirstIndex(xs, z)
  {
    forall z | z in xs ensures FirstIndex(xs + [y], z) == FirstIndex(xs, z) {
      var i := FirstIndex(xs, z);
      assert (xs + [y])[i] == z;
      assert forall k :: 0 <= k < |xs| ==> (xs + [y])[k] == xs[k];
    }
  }

  /** `[...new Set(xs)]`: the values of `xs` once each, in the order of their
      first occurrence (a Set iterates in insertion order and ignores a value
      it already holds). */
  function Dedup(xs: seq<string>): (r: seq<string>)
    ensures |r| <= |xs|
  {
    if xs == [] then []
    else
      var d := Dedup(xs[..|xs| - 1]);
      var y := xs[|xs| - 1];
      if y in d then d else d + [y]
  }

  /** Dedup keeps every value and adds none. */
  lemma {:induction false} DedupMembers(xs: seq<string>)
    ensures forall x :: x in Dedup(xs) <==> x in xs
  {
    if xs != [] {
      var p := xs[..|xs| - 1];
      DedupMembers(p);
      assert xs == p + [xs[|xs| - 1]];
    }
  }

  /** Dedup keeps each value once. */
  lemma {:induction false} DedupUnique(xs: seq<string>)
    ensures forall i, j :: 0 <= i < j < |Dedup(xs)| ==> Dedup(xs)[i] != Dedup(xs)[j]
  {
    if xs != [] {
      DedupUnique(xs[..|xs| - 1]);
    }
  }

  /** Dedup keeps the values in the order of their first occurrence. */
  lemma {:induction false} DedupOrder(xs: seq<string>)
    ensures forall x :: x in Dedup(xs) ==> x in xs
    ensures forall i, j :: 0 <= i < j < |Dedup(xs)| ==>
      FirstIndex(xs, Dedup(xs)[i]) < FirstIndex(xs, Dedup(xs)[j])
  {
    if xs != [] {
      var p := xs[..|xs| - 1];
      var y := xs[|xs| - 1];
      var d := Dedup(p);
      DedupOrder(p);
      assert xs == p + [y];
      if y !in d {
        DedupMembers(p);
        assert Dedup(xs) == d + [y];
        DedupOrderAppend(p, y, d);
      } else {
        assert Dedup(xs) == d;
        DedupOrderKeep(p, y, d);
      }
    }
  }

  /** The step of DedupOrder where the last value was seen before: the
      earlier values keep their first indices. */
  lemma DedupOrderKeep(p: seq<string>, y: string, d: seq<string>)
    requires forall x :: x in d ==> x in p
    requires forall i, j :: 0 <= i < j < |d| ==> FirstIndex(p, d[i]) < FirstIndex(p, d[j])
    ensures forall i, j :: 0 <= i < j < |d| ==> FirstIndex(p + [y], d[i]) < FirstIndex(p + [y], d[j])
  {
    FirstIndexExtend(p, y);
    forall i, j | 0 <= i < j < |d| ensures FirstIndex(p + [y], d[i]) < FirstIndex(p + [y], d[j]) {
      assert d[i] in d && d[j] in d;
    }
  }

  /** The step of DedupOrder where the last value is new: it comes after
      every earlier one. */
  lemma DedupOrderAppend(p: seq<string>, y: string, d: seq<string>)
    requires y !in p
    requires forall x :: x in d ==> x in p
    requires forall i, j :: 0 <= i < j < |d| ==> FirstIndex(p, d[i]) < FirstIndex(p, d[j])
    ensures forall i, j :: 0 <= i < j < |d + [y]| ==>
      FirstIndex(p + [y], (d + [y])[i]) < FirstIndex(p + [y], (d + [y])[j])
  {
    var xs := p + [y];
    var r := d + [y];
    FirstIndexExtend(p, y);
    assert FirstIndex(xs, y) == |p| by {
      assert xs[|p|] == y;
    }
    forall i, j | 0 <= i < j < |r| ensures FirstIndex(xs, r[i]) < FirstIndex(xs, r[j]) {
      assert r[i] == d[i] && d[i] in d;
      if j < |d| {
        assert r[j] == d[j] && d[j] in d;
      }
    }
  }

  /** The distinct current values come first, unchanged, in the appended list. */
  lemma {:induction false} DedupPrefix(a: seq<string>, b: seq<string>)
    ensures |Dedup(a)| <= |Dedup(a + b)|
    ensures Dedup(a + b)[..|Dedup(a)|] == Dedup(a)
  {
    if b != [] {
      var b' := b[..|b| - 1];
      assert (a + b)[..|a + b| - 1] == a + b';
      DedupPrefix(a, b');
    } else {
      assert a + b == a;
    }
  }

  /** computeFinalValue: the value written into one targeted note, given the
      field's current value there and the value entered for the bulk edit.
      Overwrite returns the entered value as it is, whatever its type. */
  function ComputeFinalValue(mode: BulkEditMode, current: RawValue, entered: RawValue): (r: RawValue)
    ensures mode == Overwrite ==> r == entered
    ensures mode != Overwrite ==> r.Text?
    ensures mode == Clear ==> IsFalsy(r)
  {
    var currentValues := ParseListValue(current);
    var newValues := ParseListValue(entered);
    match mode
    case Overwrite => entered
    case Append => Text(Join(Dedup(currentValues + newValues), ", "))
    case Remove => Text(Join(Without(currentValues, newValues), ", "))
    case Clear => Text("")
  }

  /** The pieces `Join(xs, ", ")` splits into at each ",": the values, each
      after the first with the space of the separator in front. */
  function Padded(xs: seq<string>): (ys: seq<string>)
    requires |xs| >= 1
    ensures |ys| == |xs| && ys[0] == xs[0]
    ensures forall k :: 1 <= k < |xs| ==> ys[k] == " " + xs[k]
  {
    [xs[0]] + seq(|xs| - 1, k requires 0 <= k < |xs| - 1 => " " + xs[k + 1])
  }

  lemma JoinSpaced(a: string, t: seq<string>, d: string)
    ensures Join([" " + a] + t, d) == " " + Join([a] + t, d)
  {
    if |t| > 0 {
      assert ([" " + a] + t)[1..] == t;
      assert ([a] + t)[1..] == t;
    }
  }

  lemma {:induction false} JoinCommaSpace(xs: seq<string>)
    requires |xs| >= 1
    ensures Join(xs, ", ") == Join(Padded(xs), [','])
  {
    if |xs| > 1 {
      var zs := xs[1..];
      JoinCommaSpace(zs);
      var pz := Padded(zs);
      assert Padded(xs)[1..] == [" " + zs[0]] + pz[1..];
      assert pz == [zs[0]] + pz[1..];
      JoinSpaced(zs[0], pz[1..], [',']);
      assert Join(Padded(xs), [',']) == xs[0] + [','] + Join(Padded(xs)[1..], [',']);
    }
  }

  /** Writing a clean, comma-free list with ", " and parsing the text back
      gives the list again. */
  lemma ParseJoinRoundTrip(xs: seq<string>)
    requires Clean(xs) && NoCommas(xs)
    ensures ParseListValue(Text(Join(xs, ", "))) == xs
  {
    if xs == [] {
      assert IsFalsy(Text(Join(xs, ", ")));
    } else {
      var s := Join(xs, ", ");
      SplitJoined(xs);
      assert s != "" by {
        assert xs[0] in xs;
        JoinFirst(xs, ", ");
      }
      assert ParseListValue(Text(s)) == Without(TrimAll(Padded(xs)), [""]);
      TrimPaddedKept(xs);
    }
  }

  /** The pieces of a comma-free list joined with ", " and split at ','
      are the list with the separator's space in front of all but the first. */
  lemma SplitJoined(xs: seq<string>)
    requires |xs| >= 1 && NoCommas(xs)
    ensures Split(Join(xs, ", "), ',') == Padded(xs)
  {
    JoinCommaSpace(xs);
    PaddedNoCommas(xs);
    SplitJoin(Padded(xs), ',');
  }

  lemma TrimPaddedKept(xs: seq<string>)
    requires |xs| >= 1 && Clean(xs)
    ensures Without(TrimAll(Padded(xs)), [""]) == xs
  {
    PaddedTrims(xs);
    forall k | 0 <= k < |xs| ensures xs[k] != "" {
      assert xs[k] in xs;
    }
    KeepNonEmpty(xs);
  }

  lemma PaddedNoCommas(xs: seq<string>)
    requires |xs| >= 1 && NoCommas(xs)
    ensures NoCommas(Padded(xs))
  {
    var ys := Padded(xs);
    forall k | 0 <= k < |ys| ensures ',' !in ys[k] {
      if k > 0 {
        assert ys[k] == [' '] + xs[k];
      }
    }
  }

  lemma PaddedTrims(xs: seq<string>)
    requires |xs| >= 1 && Clean(xs)
    ensures TrimAll(Padded(xs)) == xs
  {
    var ys := Padded(xs);
    var t := TrimAll(ys);
    forall k | 0 <= k < |ys| ensures t[k] == xs[k] {
      if k > 0 {
        assert xs[k] in xs;
        TrimSpaceTrimmed(xs[k]);
      } else {
        assert IsTrimmed(xs[0]);
      }
    }
  }

  lemma {:induction false} JoinFirst(xs: seq<string>, d: string)
    requires |xs| >= 1
    ensures |Join(xs, d)| >= |xs[0]|
  {
  }

  lemma TrimSpaceTrimmed(x: string)
    requires x != "" && IsTrimmed(x)
    ensures Trim(" " + x) == x
  {
    var s := " " + x;
    assert SpaceFrom(s, 1) == 0 by {
      assert s[1] == x[0];
    }
    assert TrimStart(s) == x by {
      assert SpaceFrom(s, 0) == 1;
      assert s[1..] == x;
    }
    assert TrimEnd(x) == x by {
      assert SpaceBefore(x, |x|) == 0;
    }
  }

  lemma {:induction false} KeepNonEmpty(xs: seq<string>)
    requires forall k :: 0 <= k < |xs| ==> xs[k] != ""
    ensures Without(xs, [""]) == xs
  {
    if xs != [] {
      KeepNonEmpty(xs[1..]);
      assert xs == [xs[0]] + xs[1..];
    }
  }

  /** What a bulk edit leaves in a note, read back with parseListValue: the
      current values followed by the new ones with repeats removed (append),
      the current values that are not among the new ones, in order (remove),
      nothing (clear). Holds whenever no value holds a comma, which is always
      so for values that were themselves parsed from text. */
  lemma FinalValueReadBack(mode: BulkEditMode, current: RawValue, entered: RawValue)
    requires mode != Overwrite
    requires NoCommas(ParseListValue(current)) && NoCommas(ParseListValue(entered))
    ensures ComputeFinalValue(mode, current, entered).Text?
    ensures ParseListValue(ComputeFinalValue(mode, current, entered)) ==
      match mode
      case Append => Dedup(ParseListValue(current) + ParseListValue(entered))
      case Remove => Without(ParseListValue(current), ParseListValue(entered))
      case _ => []
  {
    match mode {
      case Append => AppendReadBack(current, entered);
      case Remove => RemoveReadBack(current, entered);
      case Clear =>
        assert IsFalsy(ComputeFinalValue(mode, current, entered));
    }
  }

  lemma AppendReadBack(current: RawValue, entered: RawValue)
    requires NoCommas(ParseListValue(current)) && NoCommas(ParseListValue(entered))
    ensures ParseListValue(ComputeFinalValue(Append, current, entered))
      == Dedup(ParseListValue(current) + ParseListValue(entered))
  {
    var cur, added := ParseListValue(current), ParseListValue(entered);
    var d := Dedup(cur + added);
    assert ComputeFinalValue(Append, current, entered) == Text(Join(d, ", "));
    CleanConcat(cur, added);
    DedupMembers(cur + added);
    CleanFrom(d, cur + added);
    ParseJoinRoundTrip(d);
  }

  lemma RemoveReadBack(current: RawValue, entered: RawValue)
    requires NoCommas(ParseListValue(current))
    ensures ParseListValue(ComputeFinalValue(Remove, current, entered))
      == Without(ParseListValue(current), ParseListValue(entered))
  {
    var cur, added := ParseListValue(current), ParseListValue(entered);
    var w := Without(cur, added);
    assert ComputeFinalValue(Remove, current, entered) == Text(Join(w, ", "));
    CleanFrom(w, cur);
    ParseJoinRoundTrip(w);
  }

  lemma CleanConcat(a: seq<string>, b: seq<string>)
    requires Clean(a) && NoCommas(a) && Clean(b) && NoCommas(b)
    ensures Clean(a + b) && NoCommas(a + b)
  {
    forall x | x in a + b ensures x != "" && IsTrimmed(x) && ',' !in x {
      assert x in a || x in b;
    }
  }

  /** A list drawn from a clean, comma-free list is clean and comma-free. */
  lemma CleanFrom(d: seq<string>, all: seq<string>)
    requires Clean(all) && NoCommas(all)
    requires forall x :: x in d ==> x in all
    ensures Clean(d) && NoCommas(d)
  {
    forall x | x in d ensures x != "" && IsTrimmed(x) && ',' !in x {
      assert x in all;
    }
  }

  /** Overwrite writes the entered value whatever the note held; the other
      modes write text. */
  lemma OverwriteIgnoresCurrent(current: RawValue, other: RawValue, entered: RawValue)
    ensures ComputeFinalValue(Overwrite, current, entered) == entered
    ensures ComputeFinalValue(Overwrite, current, entered) == ComputeFinalValue(Overwrite, other, entered)
  {
  }

  /** Appending the same values a second time changes nothing, and a removed
      value is absent afterwards. */
  lemma AppendIdempotent(current: RawValue, entered: RawValue)
    requires NoCommas(ParseListValue(current)) && NoCommas(ParseListValue(entered))
    ensures var once := ComputeFinalValue(Append, current, entered);
      ComputeFinalValue(Append, once, entered) == once
  {
    var cur, added := ParseListValue(current), ParseListValue(entered);
    var once := ComputeFinalValue(Append, current, entered);
    FinalValueReadBack(Append, current, entered);
    var d := Dedup(cur + added);
    assert ParseListValue(once) == d;
    DedupMembers(cur + added);
    DedupUnique(cur + added);
    DedupAbsorbs(d, added);
  }

  /** Appending values already present to a repeat-free list leaves it as it is. */
  lemma {:induction false} DedupAbsorbs(d: seq<string>, b: seq<string>)
    requires forall i, j :: 0 <= i < j < |d| ==> d[i] != d[j]
    requires forall x :: x in b ==> x in d
    ensures Dedup(d + b) == d
  {
    if b == [] {
      assert d + b == d;
      DedupDistinct(d);
    } else {
      var b' := b[..|b| - 1];
      assert (d + b)[..|d + b| - 1] == d + b';
      DedupAbsorbs(d, b');
    }
  }

  lemma {:induction false} DedupDistinct(d: seq<string>)
    requires forall i, j :: 0 <= i < j < |d| ==> d[i] != d[j]
    ensures Dedup(d) == d
  {
    if d != [] {
      var p := d[..|d| - 1];
      var y := d[|d| - 1];
      assert forall i, j :: 0 <= i < j < |p| ==> p[i] != p[j];
      DedupDistinct(p);
      assert forall i :: 0 <= i < |p| ==> p[i] != y;
      assert d == p + [y];
    }
  }

  /** No value that was asked to be removed is left. */
  lemma RemoveLeavesNone(current: RawValue, entered: RawValue, x: string)
    requires NoCommas(ParseListValue(current)) && NoCommas(ParseListValue(entered))
    requires x in ParseListValue(entered)
    ensures x !in ParseListValue(ComputeFinalValue(Remove, current, entered))
  {
    FinalValueReadBack(Remove, current, entered);
  }
}
