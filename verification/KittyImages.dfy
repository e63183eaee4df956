// The images the full-screen renderer keeps in a Kitty terminal
// (internal/tui/alt_screen.go): a list of uploaded images, oldest use first, that
// must say what the terminal really holds.

module KittyImages {
  import opened Options

  const MAX_IMAGES: int := 16
  const MAX_TRANSMITTED: int := 32 * 1024 * 1024
  const MAX_DECODED: int := 64 * 1024 * 1024

  datatype Image = Image(id: nat, generation: nat, transmitted: int, decoded: int)

  /** A screen row: text, or a line that transmits an image and places it. */
  datatype Row = Text(line: nat) | Placement(image: Image, line: nat)

  /** What is written to the terminal. At goes to a row and erases it; Show places an
      image without its data. */
  datatype Command =
    | At(row: nat) | Plain(line: nat) | ClearScreen
    | Transmit(image: Image) | Show(image: Image) | Delete(id: nat) | DeleteAll | DeletePlacements

  /** The generation of each image whose data the terminal holds. */
  type Terminal = map<nat, nat>

  function Obey(t: Terminal, c: Command): Terminal {
    match c
    case Transmit(image) => t[image.id := image.generation]
    case Delete(id) => t - {id}
    case DeleteAll => map[]
    case _ => t
  }

  function Apply(t: Terminal, commands: seq<Command>): Terminal {
    if commands == [] then t else Obey(Apply(t, commands[..|commands| - 1]), commands[|commands| - 1])
  }

  predicate Holds(t: Terminal, image: Image) { image.id in t && t[image.id] == image.generation }

  predicate AsNeeded(t: Terminal, c: Command) {
    (c.Show? ==> Holds(t, c.image)) && (c.Transmit? ==> !Holds(t, c.image))
  }

  /** A row is written with its data exactly where the terminal does not hold it. */
  predicate AllAsNeeded(t: Terminal, commands: seq<Command>) {
    commands != [] ==>
      var n := |commands| - 1;
      AllAsNeeded(t, commands[..n]) && AsNeeded(Apply(t, commands[..n]), commands[n])
  }

  // ---------------------------------------------------------------- the list

  type Cache = seq<Image>

  function IndexOf(cache: Cache, id: nat): (i: int)
    ensures -1 <= i < |cache| && (i >= 0 ==> cache[i].id == id)
  {
    if cache == [] then -1
    else if cache[0].id == id then 0
    else
      var i := IndexOf(cache[1..], id);
      if i < 0 then -1 else i + 1
  }

  function RemoveAt(cache: Cache, i: nat): Cache
    requires i < |cache|
  {
    cache[..i] + cache[i + 1..]
  }

  /** An image in use moves to the end of the list. */
  function Touch(cache: Cache, image: Image): Cache {
    var i := IndexOf(cache, image.id);
    (if i < 0 then cache else RemoveAt(cache, i)) + [image]
  }

  function RowCommand(cache: Cache, row: Row): Command {
    if row.Text? then Plain(row.line)
    else
      var i := IndexOf(cache, row.image.id);
      if i >= 0 && cache[i].generation == row.image.generation then Show(row.image) else Transmit(row.image)
  }

  function CacheAfter(cache: Cache, rows: seq<Row>): Cache {
    if rows == [] then cache
    else
      var before, row := CacheAfter(cache, rows[..|rows| - 1]), rows[|rows| - 1];
      if row.Text? then before else Touch(before, row.image)
  }

  function Lines(cache: Cache, rows: seq<Row>): (r: seq<Command>)
    ensures |r| == |rows|
  {
    if rows == [] then []
    else
      var n := |rows| - 1;
      Lines(cache, rows[..n]) + [RowCommand(CacheAfter(cache, rows[..n]), rows[n])]
  }

  function VisibleIds(rows: seq<Row>): set<nat> {
    if rows == [] then {}
    else
      var row := rows[|rows| - 1];
      VisibleIds(rows[..|rows| - 1]) + (if row.Text? then {} else {row.image.id})
  }

  // ---------------------------------------------------------------- eviction

  function Offscreen(cache: Cache, visible: set<nat>): Cache {
    if cache == [] then []
    else (if cache[0].id in visible then [] else [cache[0]]) + Offscreen(cache[1..], visible)
  }

  function Onscreen(cache: Cache, visible: set<nat>): Cache {
    if cache == [] then []
    else (if cache[0].id in visible then [cache[0]] else []) + Onscreen(cache[1..], visible)
  }

  function Transmitted(cache: Cache): int { if cache == [] then 0 else cache[0].transmitted + Transmitted(cache[1..]) }

  function Decoded(cache: Cache): int { if cache == [] then 0 else cache[0].decoded + Decoded(cache[1..]) }

  predicate OverLimits(offscreen: Cache) {
    |offscreen| > MAX_IMAGES || Transmitted(offscreen) > MAX_TRANSMITTED || Decoded(offscreen) > MAX_DECODED
  }

  /** The oldest image that is not on the screen, or -1. */
  function OldestOffscreen(cache: Cache, visible: set<nat>): (i: int)
    ensures -1 <= i < |cache|
    ensures i >= 0 ==> cache[i].id !in visible
  {
    if cache == [] then -1
    else if cache[0].id !in visible then 0
    else
      var i := OldestOffscreen(cache[1..], visible);
      if i < 0 then -1 else i + 1
  }

  datatype Eviction = Eviction(cache: Cache, deletions: seq<Command>)

  function Evict(cache: Cache, visible: set<nat>): Eviction
    decreases |cache|
  {
    if OverLimits(Offscreen(cache, visible)) then
      var i := OldestOffscreen(cache, visible);
      if i < 0 then Eviction(cache, [])
      else
        var rest := Evict(RemoveAt(cache, i), visible);
        Eviction(rest.cache, [Delete(cache[i].id)] + rest.deletions)
    else Eviction(cache, [])
  }

  // ---------------------------------------------------------------- filtering

  lemma {:induction false} OffscreenStep(cache: Cache, visible: set<nat>)
    ensures var i := OldestOffscreen(cache, visible);
      && (i < 0 <==> Offscreen(cache, visible) == [])
      && (i >= 0 ==>
            && Offscreen(cache, visible) == [cache[i]] + Offscreen(RemoveAt(cache, i), visible)
            && Onscreen(cache, visible) == Onscreen(RemoveAt(cache, i), visible))
  {
    hide Offscreen, Onscreen, RemoveAt, OldestOffscreen;
    FilterUnfolds(cache, visible);
    if cache != [] {
      OffscreenStep(cache[1..], visible);
      var i := OldestOffscreen(cache, visible);
      if i >= 0 {
        RemoveUnfolds(cache, i);
        FilterUnfolds(RemoveAt(cache, i), visible);
      }
    }
  }

  lemma FilterUnfolds(cache: Cache, visible: set<nat>)
    ensures cache == [] ==> Offscreen(cache, visible) == [] && Onscreen(cache, visible) == [] && OldestOffscreen(cache, visible) == -1
    ensures cache != [] && cache[0].id in visible ==>
      && Offscreen(cache, visible) == Offscreen(cache[1..], visible)
      && Onscreen(cache, visible) == [cache[0]] + Onscreen(cache[1..], visible)
      && var i := OldestOffscreen(cache[1..], visible);
        OldestOffscreen(cache, visible) == if i < 0 then -1 else i + 1
    ensures cache != [] && cache[0].id !in visible ==>
      && Offscreen(cache, visible) == [cache[0]] + Offscreen(cache[1..], visible)
      && Onscreen(cache, visible) == Onscreen(cache[1..], visible)
      && OldestOffscreen(cache, visible) == 0
  {
  }

  lemma RemoveUnfolds(cache: Cache, i: nat)
    requires i < |cache|
    ensures i == 0 ==> RemoveAt(cache, i) == cache[1..]
    ensures i > 0 ==>
      && RemoveAt(cache, i) != [] && RemoveAt(cache, i)[0] == cache[0]
      && RemoveAt(cache, i)[1..] == RemoveAt(cache[1..], i - 1)
  {
  }

  /** At most 16 images, 32 MiB as transmitted and 64 MiB as decoded. */
  ghost predicate Within(images: Cache) {
    |images| <= 16 && Transmitted(images) <= 33554432 && Decoded(images) <= 67108864
  }

  lemma OverMeans(images: Cache)
    ensures OverLimits(images) <==> !Within(images)
  {
  }

  lemma EmptyIsWithin()
    ensures !OverLimits([]) && Within([])
  {
  }

  /** The search for an image to evict never comes back empty-handed. */
  lemma EvictionNeverStuck(cache: Cache, visible: set<nat>)
    requires OverLimits(Offscreen(cache, visible))
    ensures OldestOffscreen(cache, visible) >= 0
  {
    OffscreenStep(cache, visible);
    EmptyIsWithin();
  }

  ghost predicate Deletes(deletions: seq<Command>, images: Cache) {
    |deletions| == |images| && forall i :: 0 <= i < |images| ==> deletions[i] == Delete(images[i].id)
  }

  /** Eviction keeps every image on the screen, deletes the longest unused of the
      others and no more of them than it takes to be within the limits. */
  lemma {:induction false} EvictionIsLeast(cache: Cache, visible: set<nat>) returns (n: nat)
    ensures var e := Evict(cache, visible);
      && n <= |Offscreen(cache, visible)|
      && Onscreen(e.cache, visible) == Onscreen(cache, visible)
      && Offscreen(e.cache, visible) == Offscreen(cache, visible)[n..]
      && Deletes(e.deletions, Offscreen(cache, visible)[..n])
      && Within(Offscreen(e.cache, visible))
      && forall k :: 0 <= k < n ==> !Within(Offscreen(cache, visible)[k..])
    decreases |cache|
  {
    hide OverLimits, Within, Offscreen, Onscreen, OldestOffscreen;
    var off := Offscreen(cache, visible);
    OverMeans(off);
    assert off[0..] == off;
    if OverLimits(off) {
      EvictionNeverStuck(cache, visible);
      OffscreenStep(cache, visible);
      var i: nat := OldestOffscreen(cache, visible);
      var smaller := RemoveAt(cache, i);
      var m := EvictionIsLeast(smaller, visible);
      n := m + 1;
      var rest := Offscreen(smaller, visible);
      assert off[1..] == rest && off[..n] == [cache[i]] + rest[..m] && off[n..] == rest[m..];
      forall k | 0 <= k < n ensures !Within(off[k..]) {
        if k > 0 { assert off[k..] == rest[k - 1..]; }
      }
    } else {
      n := 0;
    }
  }

  // ---------------------------------------------------------------- agreement with the terminal

  ghost predicate Unique(cache: Cache) {
    forall i, j :: 0 <= i < j < |cache| ==> cache[i].id != cache[j].id
  }

  ghost predicate Listed(cache: Cache, id: nat) { exists i :: 0 <= i < |cache| && cache[i].id == id }

  /** The list and the terminal say the same: one entry an image, with the
      generation the terminal holds, and nothing in the terminal unlisted. */
  ghost predicate Agrees(cache: Cache, t: Terminal) {
    && Unique(cache)
    && (forall i :: 0 <= i < |cache| ==> cache[i].id in t && t[cache[i].id] == cache[i].generation)
    && (forall id :: id in t ==> Listed(cache, id))
  }

  lemma {:induction false} IndexOfFinds(cache: Cache, id: nat)
    ensures IndexOf(cache, id) >= 0 <==> Listed(cache, id)
  {
    if cache != [] {
      IndexOfFinds(cache[1..], id);
      if i :| 0 <= i < |cache| && cache[i].id == id {
        if i > 0 { assert cache[1..][i - 1].id == id; }
      }
      if j :| 0 <= j < |cache| - 1 && cache[1..][j].id == id { assert cache[j + 1].id == id; }
    }
  }

  lemma RemoveAgrees(cache: Cache, i: nat, t: Terminal)
    requires Agrees(cache, t) && i < |cache|
    ensures Agrees(RemoveAt(cache, i), t - {cache[i].id})
  {
    var rest := RemoveAt(cache, i);
    forall k | 0 <= k < |rest|
      ensures rest[k].id in t - {cache[i].id} && t[rest[k].id] == rest[k].generation
    {
      assert rest[k] == cache[if k < i then k else k + 1];
    }
    forall id | id in t - {cache[i].id} ensures Listed(rest, id) {
      var j :| 0 <= j < |cache| && cache[j].id == id;
      assert rest[if j < i then j else j - 1].id == id;
    }
  }

  lemma AppendAgrees(cache: Cache, image: Image, t: Terminal)
    requires Agrees(cache, t) && image.id !in t
    ensures Agrees(cache + [image], t[image.id := image.generation])
  {
    var more := cache + [image];
    forall id | id in t[image.id := image.generation] ensures Listed(more, id) {
      if id == image.id {
        assert more[|cache|].id == id;
      } else {
        var j :| 0 <= j < |cache| && cache[j].id == id;
        assert more[j].id == id;
      }
    }
    forall i, j | 0 <= i < j < |more| ensures more[i].id != more[j].id {
      assert i < |cache| ==> more[i] == cache[i] && cache[i].id in t;
    }
  }

  // One row: what is written displays, and the list still agrees.
  lemma RowAgrees(cache: Cache, row: Row, t: Terminal)
    requires Agrees(cache, t)
    ensures var c := RowCommand(cache, row);
      AsNeeded(t, c) && Agrees(if row.Text? then cache else Touch(cache, row.image), Obey(t, c))
  {
    hide IndexOf, Agrees;
    if row.Placement? {
      var image := row.image;
      var i := IndexOf(cache, image.id);
      IndexOfFinds(cache, image.id);
      ListedIsHeld(cache, t);
      if i >= 0 {
        RemoveAgrees(cache, i, t);
        AppendAgrees(RemoveAt(cache, i), image, t - {image.id});
        assert (t - {image.id})[image.id := image.generation] == t[image.id := image.generation];
        if cache[i].generation == image.generation {
          assert t[image.id := image.generation] == t;
        }
      } else {
        AppendAgrees(cache, image, t);
      }
    }
  }

  lemma ListedIsHeld(cache: Cache, t: Terminal)
    requires Agrees(cache, t)
    ensures forall i :: 0 <= i < |cache| ==> cache[i].id in t && t[cache[i].id] == cache[i].generation
    ensures forall id :: id in t ==> Listed(cache, id)
  {
  }

  lemma {:induction false} RowsAgree(cache: Cache, rows: seq<Row>, t: Terminal)
    requires Agrees(cache, t)
    ensures AllAsNeeded(t, Lines(cache, rows)) && Agrees(CacheAfter(cache, rows), Apply(t, Lines(cache, rows)))
  {
    hide Agrees, AsNeeded, Touch, RowCommand, Obey;
    if rows != [] {
      var n := |rows| - 1;
      RowsAgree(cache, rows[..n], t);
      var lines := Lines(cache, rows);
      assert lines[..n] == Lines(cache, rows[..n]);
      RowAgrees(CacheAfter(cache, rows[..n]), rows[n], Apply(t, lines[..n]));
    }
  }

  // ---------------------------------------------------------------- the order of use

  /** The last row that places an image, or -1. */
  function LastAt(rows: seq<Row>, id: nat): (at: int)
    ensures -1 <= at < |rows|
  {
    if rows == [] then -1
    else if rows[|rows| - 1].Placement? && rows[|rows| - 1].image.id == id then |rows| - 1
    else LastAt(rows[..|rows| - 1], id)
  }

  // The images placed, each as it was placed last.
  function Placements(rows: seq<Row>): Cache {
    if rows == [] then []
    else
      var before, row := Placements(rows[..|rows| - 1]), rows[|rows| - 1];
      if row.Text? then before else Offscreen(before, {row.image.id}) + [row.image]
  }

  lemma {:induction false} OffscreenAdds(a: Cache, b: Cache, visible: set<nat>)
    ensures Offscreen(a + b, visible) == Offscreen(a, visible) + Offscreen(b, visible)
  {
    if a == [] {
      assert a + b == b;
    } else {
      assert (a + b)[1..] == a[1..] + b;
      OffscreenAdds(a[1..], b, visible);
    }
  }

  lemma {:induction false} OffscreenTwice(a: Cache, first: set<nat>, second: set<nat>)
    ensures Offscreen(Offscreen(a, first), second) == Offscreen(a, first + second)
  {
    if a != [] {
      OffscreenTwice(a[1..], first, second);
      var head := if a[0].id in first then [] else [a[0]];
      OffscreenAdds(head, Offscreen(a[1..], first), second);
      assert head != [] ==> head[1..] == [];
    }
  }

  lemma {:induction false} OffscreenOfOthers(a: Cache, visible: set<nat>)
    requires forall i :: 0 <= i < |a| ==> a[i].id !in visible
    ensures Offscreen(a, visible) == a
  {
    if a != [] {
      OffscreenOfOthers(a[1..], visible);
      assert a == [a[0]] + a[1..];
    }
  }

  lemma {:induction false} OffscreenHolds(a: Cache, visible: set<nat>)
    ensures forall x :: x in Offscreen(a, visible) <==> x in a && x.id !in visible
    ensures Unique(a) ==> Unique(Offscreen(a, visible))
  {
    if a != [] {
      OffscreenHolds(a[1..], visible);
      assert forall x :: x in a <==> x == a[0] || x in a[1..];
      var rest := Offscreen(a[1..], visible);
      if Unique(a) {
        assert Unique(a[1..]);
        forall i | 0 <= i < |rest| ensures rest[i].id != a[0].id { assert rest[i] in rest && rest[i] in a[1..]; }
      }
    }
  }

  // Filtering out an image that is there once is taking out its entry.
  lemma {:induction false} OffscreenTakesOut(cache: Cache, i: nat)
    requires Unique(cache) && i < |cache|
    ensures Offscreen(cache, {cache[i].id}) == RemoveAt(cache, i)
  {
    hide RemoveAt;
    RemoveUnfolds(cache, i);
    if i == 0 {
      OffscreenOfOthers(cache[1..], {cache[0].id});
    } else {
      OffscreenTakesOut(cache[1..], i - 1);
      var rest := RemoveAt(cache, i);
      assert rest == [rest[0]] + rest[1..];
    }
  }

  // Touching an image is taking it out and putting it last.
  lemma TouchFilters(cache: Cache, image: Image)
    requires Unique(cache)
    ensures Touch(cache, image) == Offscreen(cache, {image.id}) + [image]
  {
    hide Offscreen, Unique, IndexOf;
    IndexOfFinds(cache, image.id);
    if IndexOf(cache, image.id) >= 0 {
      OffscreenTakesOut(cache, IndexOf(cache, image.id));
    } else {
      assert forall j :: 0 <= j < |cache| ==> cache[j].id != image.id;
      OffscreenOfOthers(cache, {image.id});
    }
  }

  lemma PutLastIsUnique(cache: Cache, image: Image)
    requires Unique(cache)
    ensures Unique(Offscreen(cache, {image.id}) + [image])
  {
    OffscreenHolds(cache, {image.id});
    var rest := Offscreen(cache, {image.id});
    forall i | 0 <= i < |rest| ensures rest[i].id != image.id { assert rest[i] in rest; }
  }

  lemma {:induction false} RowsKeepOrder(cache: Cache, rows: seq<Row>)
    requires Unique(cache)
    ensures CacheAfter(cache, rows) == Offscreen(cache, VisibleIds(rows)) + Placements(rows) && Unique(CacheAfter(cache, rows))
  {
    hide Touch, Offscreen, Unique;
    if rows == [] {
      NothingVisible(cache);
    } else {
      var n := |rows| - 1;
      RowsKeepOrder(cache, rows[..n]);
      if rows[n].Placement? {
        var image := rows[n].image;
        var before := CacheAfter(cache, rows[..n]);
        TouchFilters(before, image);
        PutLastIsUnique(before, image);
        OffscreenAdds(Offscreen(cache, VisibleIds(rows[..n])), Placements(rows[..n]), {image.id});
        OffscreenTwice(cache, VisibleIds(rows[..n]), {image.id});
      } else {
        assert VisibleIds(rows) == VisibleIds(rows[..n]);
      }
    }
  }

  lemma NothingVisible(cache: Cache)
    ensures Offscreen(cache, {}) == cache && Offscreen(cache, {}) + [] == cache
  {
    OffscreenOfOthers(cache, {});
  }

  /** Each image as the last of its rows says, in the order of those rows. */
  ghost predicate InOrderOfRows(rows: seq<Row>, p: Cache) {
    && (forall i :: 0 <= i < |p| ==> LastSays(rows, p[i]))
    && (forall i, j :: 0 <= i < j < |p| ==> LastAt(rows, p[i].id) < LastAt(rows, p[j].id))
  }

  ghost predicate LastSays(rows: seq<Row>, image: Image) {
    var at := LastAt(rows, image.id);
    at >= 0 && rows[at].Placement? && rows[at].image == image
  }

  lemma LastUnfolds(rows: seq<Row>, id: nat)
    requires rows != []
    ensures var n := |rows| - 1;
      LastAt(rows, id) == if rows[n].Placement? && rows[n].image.id == id then n else LastAt(rows[..n], id)
  {
  }

  lemma OrderExtends(rows: seq<Row>, p: Cache)
    requires rows != [] && InOrderOfRows(rows[..|rows| - 1], p)
    requires rows[|rows| - 1].Placement? ==> forall i :: 0 <= i < |p| ==> p[i].id != rows[|rows| - 1].image.id
    ensures InOrderOfRows(rows, p)
    ensures rows[|rows| - 1].Placement? ==> InOrderOfRows(rows, p + [rows[|rows| - 1].image])
  {
    hide LastAt;
    var n := |rows| - 1;
    forall i | 0 <= i < |p| ensures LastAt(rows, p[i].id) == LastAt(rows[..n], p[i].id) && LastSays(rows, p[i]) {
      LastUnfolds(rows, p[i].id);
      assert LastSays(rows[..n], p[i]);
    }
    if rows[n].Placement? { LastUnfolds(rows, rows[n].image.id); }
  }

  lemma {:induction false} PlacementsAreInOrder(rows: seq<Row>)
    ensures InOrderOfRows(rows, Placements(rows))
  {
    hide Offscreen, InOrderOfRows;
    if rows == [] {
      NothingInOrder(rows);
    } else {
      var n := |rows| - 1;
      PlacementsAreInOrder(rows[..n]);
      var before := Placements(rows[..n]);
      if rows[n].Placement? {
        FilteredOrder(rows[..n], before, {rows[n].image.id});
        OthersOnly(before, rows[n].image.id);
        OrderExtends(rows, Offscreen(before, {rows[n].image.id}));
      } else {
        OrderExtends(rows, before);
      }
    }
  }

  lemma OthersOnly(a: Cache, out: nat)
    ensures forall i :: 0 <= i < |Offscreen(a, {out})| ==> Offscreen(a, {out})[i].id != out && Offscreen(a, {out})[i] in a
  {
    OffscreenHolds(a, {out});
    var rest := Offscreen(a, {out});
    forall i | 0 <= i < |rest| ensures rest[i].id != out && rest[i] in a { assert rest[i] in rest; }
  }

  lemma NothingInOrder(rows: seq<Row>)
    ensures InOrderOfRows(rows, [])
  {
  }

  // An entry in front of later ones keeps the order.
  lemma OrderConses(rows: seq<Row>, x: Image, tail: Cache)
    requires LastSays(rows, x) && InOrderOfRows(rows, tail)
    requires forall j :: 0 <= j < |tail| ==> LastAt(rows, x.id) < LastAt(rows, tail[j].id)
    ensures InOrderOfRows(rows, [x] + tail)
  {
    hide LastAt, LastSays;
    var rest := [x] + tail;
    assert forall i :: 0 < i < |rest| ==> rest[i] == tail[i - 1];
  }

  lemma OrderOfTail(rows: seq<Row>, a: Cache)
    requires a != [] && InOrderOfRows(rows, a)
    ensures LastSays(rows, a[0]) && InOrderOfRows(rows, a[1..])
    ensures forall e :: e in a[1..] ==> LastAt(rows, a[0].id) < LastAt(rows, e.id)
  {
    hide LastAt, LastSays;
    assert forall i :: 0 <= i < |a| - 1 ==> a[1..][i] == a[i + 1];
  }

  // Leaving some out keeps the order of the others.
  lemma {:induction false} FilteredOrder(rows: seq<Row>, a: Cache, out: set<nat>)
    requires InOrderOfRows(rows, a)
    ensures InOrderOfRows(rows, Offscreen(a, out))
  {
    hide LastAt, LastSays, InOrderOfRows;
    if a == [] {
      NothingInOrder(rows);
    } else {
      OrderOfTail(rows, a);
      FilteredOrder(rows, a[1..], out);
      OffscreenHolds(a[1..], out);
      var tail := Offscreen(a[1..], out);
      assert forall j :: 0 <= j < |tail| ==> tail[j] in tail;
      if a[0].id !in out {
        OrderConses(rows, a[0], tail);
      } else {
        assert [] + tail == tail;
      }
    }
  }

  /** The list is in order of last use: images not placed keep their order in front, and
      behind them come those placed, each with what its last row says, in the order of
      those rows. */
  lemma ListIsInOrderOfUse(cache: Cache, rows: seq<Row>)
    requires Unique(cache)
    ensures var c, n := CacheAfter(cache, rows), |Offscreen(cache, VisibleIds(rows))|;
      && Unique(c) && n <= |c| && c[..n] == Offscreen(cache, VisibleIds(rows))
      && InOrderOfRows(rows, c[n..])
  {
    hide Offscreen, LastAt, InOrderOfRows;
    RowsKeepOrder(cache, rows);
    PlacementsAreInOrder(rows);
  }

  // ---------------------------------------------------------------- deleting first

  // The rows never name an evicted image, so deleting before writing them is the
  // same as deleting after.
  ghost predicate Avoids(commands: seq<Command>, id: nat) {
    forall i :: 0 <= i < |commands| ==>
      var c := commands[i];
      (c.At? || c.Plain? || c.Transmit? || c.Show?) && ((c.Transmit? || c.Show?) ==> c.image.id != id)
  }

  lemma {:induction false} DeleteCommutes(t: Terminal, id: nat, commands: seq<Command>)
    requires Avoids(commands, id)
    ensures Apply(t - {id}, commands) == Apply(t, commands) - {id}
    ensures AllAsNeeded(t - {id}, commands) <==> AllAsNeeded(t, commands)
  {
    if commands != [] {
      var n := |commands| - 1;
      DeleteCommutes(t, id, commands[..n]);
      var c := commands[n];
      assert Obey(Apply(t, commands[..n]) - {id}, c) == Obey(Apply(t, commands[..n]), c) - {id};
    }
  }

  lemma {:induction false} ApplyAdds(t: Terminal, a: seq<Command>, b: seq<Command>)
    ensures Apply(t, a + b) == Apply(Apply(t, a), b)
    ensures AllAsNeeded(t, a + b) <==> AllAsNeeded(t, a) && AllAsNeeded(Apply(t, a), b)
    decreases |b|
  {
    hide Obey, AsNeeded;
    if b == [] {
      assert a + b == a;
    } else {
      var n := |b| - 1;
      assert (a + b)[..|a + b| - 1] == a + b[..n] && (a + b)[|a + b| - 1] == b[n];
      ApplyAdds(t, a, b[..n]);
    }
  }

  lemma {:induction false} LinesAvoid(cache: Cache, rows: seq<Row>, id: nat)
    requires id !in VisibleIds(rows)
    ensures Avoids(Lines(cache, rows), id)
  {
    if rows != [] { LinesAvoid(cache, rows[..|rows| - 1], id); }
  }

  lemma {:induction false} PlacedAvoids(lines: seq<Command>, k: nat, id: nat)
    requires Avoids(lines, id)
    ensures Avoids(Placed(lines, k), id)
  {
    if k > 0 { PlacedAvoids(lines, k - 1, id); }
  }

  lemma NothingDone(t: Terminal)
    ensures Apply(t, []) == t && AllAsNeeded(t, [])
  {
  }

  lemma OneMore(t: Terminal, commands: seq<Command>, c: Command)
    ensures Apply(t, commands + [c]) == Obey(Apply(t, commands), c)
    ensures AllAsNeeded(t, commands + [c]) <==> AllAsNeeded(t, commands) && AsNeeded(Apply(t, commands), c)
  {
    assert (commands + [c])[..|commands|] == commands;
  }

  // Going to the rows changes nothing about images.
  lemma {:induction false} PlacedActs(t: Terminal, lines: seq<Command>, k: nat)
    ensures var n := Min(k, |lines|);
      Apply(t, Placed(lines, k)) == Apply(t, lines[..n]) && (AllAsNeeded(t, Placed(lines, k)) <==> AllAsNeeded(t, lines[..n]))
  {
    hide Apply, AllAsNeeded;
    if k == 0 {
      assert lines[..0] == [];
    } else {
      PlacedActs(t, lines, k - 1);
      var before := Placed(lines, k - 1);
      var c := if k - 1 < |lines| then lines[k - 1] else Plain(0);
      OneMore(t, before, At(k - 1));
      OneMore(t, before + [At(k - 1)], c);
      assert Placed(lines, k) == before + [At(k - 1)] + [c];
      if k - 1 < |lines| {
        assert lines[..k] == lines[..k - 1] + [c];
        OneMore(t, lines[..k - 1], c);
      }
    }
  }

  lemma DeleteFirst(t: Terminal, id: nat)
    ensures Apply(t, [Delete(id)]) == t - {id} && AllAsNeeded(t, [Delete(id)])
  {
    assert [Delete(id)][..0] == [];
  }

  // Evictions written before the rows leave list and terminal in agreement.
  lemma {:induction false} EvictionAgrees(old_: Terminal, cache: Cache, visible: set<nat>, lines: seq<Command>)
    requires Agrees(cache, Apply(old_, lines)) && AllAsNeeded(old_, lines)
    requires forall id :: id !in visible ==> Avoids(lines, id)
    ensures var e := Evict(cache, visible);
      AllAsNeeded(old_, e.deletions + lines) && Agrees(e.cache, Apply(old_, e.deletions + lines))
    decreases |cache|
  {
    hide Agrees, OverLimits, Avoids, AllAsNeeded, Apply, RemoveAt, Offscreen;
    var e := Evict(cache, visible);
    if OverLimits(Offscreen(cache, visible)) && OldestOffscreen(cache, visible) >= 0 {
      var i: nat := OldestOffscreen(cache, visible);
      var id := cache[i].id;
      DeleteCommutes(old_, id, lines);
      RemoveAgrees(cache, i, Apply(old_, lines));
      SmallerCache(cache, i);
      EvictionAgrees(old_ - {id}, RemoveAt(cache, i), visible, lines);
      var rest := Evict(RemoveAt(cache, i), visible).deletions;
      assert e.deletions + lines == [Delete(id)] + (rest + lines);
      DeleteFirst(old_, id);
      ApplyAdds(old_, [Delete(id)], rest + lines);
    } else {
      assert e.deletions + lines == lines;
    }
  }

  lemma SmallerCache(cache: Cache, i: nat)
    requires i < |cache|
    ensures |RemoveAt(cache, i)| < |cache|
  {
  }

  // ---------------------------------------------------------------- frames

  datatype Screen = Screen(cache: Cache, previous: seq<Row>, width: nat, height: nat)

  function RowAt(rows: seq<Row>, i: nat): Row { if i < |rows| then rows[i] else Text(0) }

  predicate ImagesChanged(screen: seq<Row>, previous: seq<Row>) {
    exists i :: 0 <= i < |screen| && screen[i] != RowAt(previous, i) && (screen[i].Placement? || RowAt(previous, i).Placement?)
  }

  /** The first k rows, each gone to and erased; past the end they are left empty. */
  function Placed(lines: seq<Command>, k: nat): seq<Command> {
    if k == 0 then [] else Placed(lines, k - 1) + [At(k - 1), if k - 1 < |lines| then lines[k - 1] else Plain(0)]
  }

  function Changed(screen: seq<Row>, previous: seq<Row>, k: nat): seq<Command> {
    if k == 0 then []
    else
      var before := Changed(screen, previous, k - 1);
      if k - 1 < |previous| && RowAt(screen, k - 1) == previous[k - 1] then before
      else before + [At(k - 1), if RowAt(screen, k - 1).Placement? then Transmit(RowAt(screen, k - 1).image) else Plain(RowAt(screen, k - 1).line)]
  }

  datatype Frame = Frame(next: Screen, commands: seq<Command>)

  predicate FullRedraw(s: Screen, width: nat, height: nat) { s.previous == [] || s.width != width || s.height != height }

  function Clearing(s: Screen, fullRedraw: bool): Command {
    if fullRedraw && s.cache == [] then DeleteAll else DeletePlacements
  }

  function Cleared(s: Screen, fullRedraw: bool): seq<Command> {
    [Clearing(s, fullRedraw)] + (if fullRedraw then [ClearScreen] else [])
  }

  function LastRows(rows: seq<Row>, height: nat): seq<Row> { if |rows| > height then rows[|rows| - height..] else rows }

  function Render(s: Screen, rows: seq<Row>, width: nat, height: nat): Frame {
    var screen := LastRows(rows, height);
    var fullRedraw := FullRedraw(s, width, height);
    if fullRedraw || ImagesChanged(screen, s.previous) then
      var eviction := Evict(CacheAfter(s.cache, screen), VisibleIds(screen));
      Frame(Screen(eviction.cache, screen, width, height),
            Cleared(s, fullRedraw) + (eviction.deletions + Placed(Lines(s.cache, screen), height)))
    else Frame(Screen(s.cache, screen, width, height), Changed(screen, s.previous, height))
  }

  ghost predicate NoImages(commands: seq<Command>) { forall i :: 0 <= i < |commands| ==> commands[i].Plain? || commands[i].At? }

  lemma {:induction false} PlainChangesNothing(t: Terminal, commands: seq<Command>)
    requires NoImages(commands)
    ensures Apply(t, commands) == t && AllAsNeeded(t, commands)
  {
    if commands != [] { PlainChangesNothing(t, commands[..|commands| - 1]); }
  }

  lemma {:induction false} ChangedIsPlain(screen: seq<Row>, previous: seq<Row>, k: nat)
    requires !ImagesChanged(screen, previous)
    ensures NoImages(Changed(screen, previous, k))
  {
    if k > 0 {
      ChangedIsPlain(screen, previous, k - 1);
      if k - 1 < |screen| && screen[k - 1].Placement? {
        assert screen[k - 1] == RowAt(previous, k - 1);
      }
    }
  }

  lemma ClearingAgrees(s: Screen, fullRedraw: bool, t: Terminal)
    requires Agrees(s.cache, t) || (fullRedraw && s.cache == [])
    ensures Agrees(s.cache, Apply(t, Cleared(s, fullRedraw))) && AllAsNeeded(t, Cleared(s, fullRedraw))
  {
    hide Agrees, Apply, AllAsNeeded;
    NothingDone(t);
    OneMore(t, [], Clearing(s, fullRedraw));
    assert [] + [Clearing(s, fullRedraw)] == [Clearing(s, fullRedraw)];
    assert [Clearing(s, fullRedraw)] + [] == [Clearing(s, fullRedraw)];
    if fullRedraw { OneMore(t, [Clearing(s, fullRedraw)], ClearScreen); }
    NothingAgrees();
  }

  lemma NothingAgrees()
    ensures Agrees([], map[])
  {
  }

  // What holds between frames: list and terminal agree, or everything is about to be
  // deleted.
  ghost predicate InStep(s: Screen, t: Terminal) { Agrees(s.cache, t) || (s.cache == [] && s.previous == []) }

  ghost predicate WithinLimits(s: Screen, visible: set<nat>) { Within(Offscreen(s.cache, visible)) }

  /** One frame: every row written without data displays, and the list agrees with
      the terminal afterwards. */
  lemma FrameAgrees(s: Screen, t: Terminal, rows: seq<Row>, width: nat, height: nat)
    requires InStep(s, t)
    ensures var f := Render(s, rows, width, height);
      AllAsNeeded(t, f.commands) && Agrees(f.next.cache, Apply(t, f.commands))
  {
    hide Agrees, AllAsNeeded, Apply, Evict, Lines, CacheAfter, VisibleIds, ImagesChanged, Changed, Avoids, Cleared, Placed;
    var screen := LastRows(rows, height);
    var fullRedraw := FullRedraw(s, width, height);
    if fullRedraw || ImagesChanged(screen, s.previous) {
      ClearingAgrees(s, fullRedraw, t);
      var cleared := Apply(t, Cleared(s, fullRedraw));
      var lines := Placed(Lines(s.cache, screen), height);
      PlacedActs(cleared, Lines(s.cache, screen), height);
      assert Lines(s.cache, screen)[..|screen|] == Lines(s.cache, screen);
      RowsAgree(s.cache, screen, cleared);
      forall id | id !in VisibleIds(screen) ensures Avoids(lines, id) {
        LinesAvoid(s.cache, screen, id);
        PlacedAvoids(Lines(s.cache, screen), height, id);
      }
      EvictionAgrees(cleared, CacheAfter(s.cache, screen), VisibleIds(screen), lines);
      var body := Evict(CacheAfter(s.cache, screen), VisibleIds(screen)).deletions + lines;
      ApplyAdds(t, Cleared(s, fullRedraw), body);
    } else {
      ChangedIsPlain(screen, s.previous, height);
      PlainChangesNothing(t, Changed(screen, s.previous, height));
    }
  }

  /** After a frame that draws images the images off the screen are within all three
      limits and every image on it is listed. */
  lemma FrameWithinLimits(s: Screen, rows: seq<Row>, width: nat, height: nat)
    requires FullRedraw(s, width, height) || ImagesChanged(LastRows(rows, height), s.previous)
    ensures var visible := VisibleIds(LastRows(rows, height));
      var next := Render(s, rows, width, height).next;
      WithinLimits(next, visible) && forall id :: id in visible ==> Listed(next.cache, id)
  {
    hide OverLimits, Evict, CacheAfter, Listed, ImagesChanged;
    var screen := LastRows(rows, height);
    var visible := VisibleIds(screen);
    var touched := CacheAfter(s.cache, screen);
    var n := EvictionIsLeast(touched, visible);
    forall id | id in visible ensures Listed(Evict(touched, visible).cache, id) {
      VisibleAreListed(s.cache, screen, id);
      OnscreenListed(touched, visible, id);
      OnscreenListed(Evict(touched, visible).cache, visible, id);
    }
  }

  lemma {:induction false} OnscreenListed(cache: Cache, visible: set<nat>, id: nat)
    requires id in visible
    ensures Listed(cache, id) <==> Listed(Onscreen(cache, visible), id)
  {
    if cache != [] {
      OnscreenListed(cache[1..], visible, id);
      ListedCons(cache[0], cache[1..], id);
      assert cache == [cache[0]] + cache[1..];
      ListedCons(cache[0], Onscreen(cache[1..], visible), id);
      assert [] + Onscreen(cache[1..], visible) == Onscreen(cache[1..], visible);
    }
  }

  lemma ListedCons(image: Image, rest: Cache, id: nat)
    ensures Listed([image] + rest, id) <==> image.id == id || Listed(rest, id)
  {
    var all := [image] + rest;
    assert all[0] == image;
    if i :| 0 <= i < |rest| && rest[i].id == id { assert all[i + 1].id == id; }
    if i :| 0 <= i < |all| && all[i].id == id {
      if i > 0 { assert rest[i - 1].id == id; }
    }
  }

  lemma RemoveLists(cache: Cache, i: nat, id: nat)
    requires i < |cache| && cache[i].id != id && Listed(cache, id)
    ensures Listed(RemoveAt(cache, i), id)
  {
    var j :| 0 <= j < |cache| && cache[j].id == id;
    assert RemoveAt(cache, i)[if j < i then j else j - 1].id == id;
  }

  lemma AppendLists(cache: Cache, image: Image, id: nat)
    ensures Listed(cache + [image], id) <==> image.id == id || Listed(cache, id)
  {
    var more := cache + [image];
    assert more[|cache|] == image;
    if j :| 0 <= j < |cache| && cache[j].id == id { assert more[j].id == id; }
  }

  lemma TouchLists(cache: Cache, image: Image, id: nat)
    ensures Listed(Touch(cache, image), image.id)
    ensures Listed(cache, id) ==> Listed(Touch(cache, image), id)
  {
    hide IndexOf, Listed, RemoveAt;
    var i := IndexOf(cache, image.id);
    var rest := if i < 0 then cache else RemoveAt(cache, i);
    if i >= 0 && Listed(cache, id) && id != image.id { RemoveLists(cache, i, id); }
    AppendLists(rest, image, image.id);
    AppendLists(rest, image, id);
  }

  lemma {:induction false} VisibleAreListed(cache: Cache, rows: seq<Row>, id: nat)
    requires id in VisibleIds(rows)
    ensures Listed(CacheAfter(cache, rows), id)
  {
    hide Listed, Touch;
    if rows != [] {
      var row := rows[|rows| - 1];
      var before := CacheAfter(cache, rows[..|rows| - 1]);
      if id in VisibleIds(rows[..|rows| - 1]) { VisibleAreListed(cache, rows[..|rows| - 1], id); }
      if row.Placement? { TouchLists(before, row.image, id); }
    }
  }

  // ---------------------------------------------------------------- runs

  datatype Event = Start | Reset | Draw(rows: seq<Row>, width: nat, height: nat)

  datatype World = World(screen: Screen, terminal: Terminal, allDisplayed: bool)

  /** Starting forgets everything on the program's side, resetting only the rows last
      drawn; drawing renders a frame. */
  function Happen(w: World, e: Event): World {
    match e
    case Start => w.(screen := Screen([], [], 0, 0))
    case Reset => w.(screen := Screen(w.screen.cache, [], 0, 0))
    case Draw(rows, width, height) =>
      var f := Render(w.screen, rows, width, height);
      World(f.next, Apply(w.terminal, f.commands), w.allDisplayed && AllAsNeeded(w.terminal, f.commands))
  }

  function Happened(t: Terminal, events: seq<Event>): World {
    if events == [] then World(Screen([], [], 0, 0), t, true)
    else Happen(Happened(t, events[..|events| - 1]), events[|events| - 1])
  }

  lemma ResetStaysInStep(w: World, e: Event)
    requires InStep(w.screen, w.terminal) && !e.Draw?
    ensures InStep(Happen(w, e).screen, Happen(w, e).terminal)
  {
  }

  /** Over any run, whatever the terminal held before: no row is ever written without
      the data it needs, and after every frame the list says exactly what the
      terminal holds. */
  lemma {:induction false} ListAlwaysAgrees(t: Terminal, events: seq<Event>)
    ensures var w := Happened(t, events);
      && w.allDisplayed && InStep(w.screen, w.terminal)
      && (events != [] && events[|events| - 1].Draw? ==> Agrees(w.screen.cache, w.terminal))
  {
    hide Render, Agrees, Apply, AllAsNeeded;
    if events != [] {
      var e := events[|events| - 1];
      var w := Happened(t, events[..|events| - 1]);
      ListAlwaysAgrees(t, events[..|events| - 1]);
      if e.Draw? {
        FrameAgrees(w.screen, w.terminal, e.rows, e.width, e.height);
      } else {
        ResetStaysInStep(w, e);
      }
    }
  }

  // ---------------------------------------------------------------- the limits over runs

  /** Between frames: the images off the screen are within the limits and those on it
      are listed. */
  ghost predicate LimitsKept(s: Screen) {
    WithinLimits(s, VisibleIds(s.previous)) && forall id :: id in VisibleIds(s.previous) ==> Listed(s.cache, id)
  }

  /** A frame with fewer rows than the last one of its size: the rows that go missing
      are not compared. */
  predicate Shrinks(s: Screen, rows: seq<Row>, width: nat, height: nat) {
    !FullRedraw(s, width, height) && |LastRows(rows, height)| < |s.previous|
  }

  lemma {:induction false} VisibleMeans(rows: seq<Row>, id: nat)
    ensures id in VisibleIds(rows) <==> exists i :: 0 <= i < |rows| && rows[i].Placement? && rows[i].image.id == id
  {
    if rows != [] {
      var n := |rows| - 1;
      VisibleMeans(rows[..n], id);
      if i :| 0 <= i < n && rows[i].Placement? && rows[i].image.id == id { assert rows[..n][i] == rows[i]; }
    }
  }

  lemma SameImagesVisible(screen: seq<Row>, previous: seq<Row>)
    requires !ImagesChanged(screen, previous) && |screen| >= |previous|
    ensures VisibleIds(screen) == VisibleIds(previous)
  {
    hide VisibleIds;
    forall id ensures id in VisibleIds(screen) <==> id in VisibleIds(previous) {
      VisibleMeans(screen, id);
      VisibleMeans(previous, id);
      SamePlacements(screen, previous, id);
    }
  }

  lemma SamePlacements(screen: seq<Row>, previous: seq<Row>, id: nat)
    requires !ImagesChanged(screen, previous) && |screen| >= |previous|
    ensures (exists i :: 0 <= i < |screen| && screen[i].Placement? && screen[i].image.id == id)
      <==> (exists i :: 0 <= i < |previous| && previous[i].Placement? && previous[i].image.id == id)
  {
    if i :| 0 <= i < |screen| && screen[i].Placement? && screen[i].image.id == id {
      assert screen[i] == RowAt(previous, i);
    }
    if i :| 0 <= i < |previous| && previous[i].Placement? && previous[i].image.id == id {
      assert screen[i] == RowAt(previous, i);
    }
  }

  lemma FrameKeepsLimits(s: Screen, rows: seq<Row>, width: nat, height: nat)
    requires s.previous == [] || LimitsKept(s)
    requires !Shrinks(s, rows, width, height)
    ensures LimitsKept(Render(s, rows, width, height).next)
  {
    hide WithinLimits, VisibleIds, Listed, ImagesChanged, Evict, CacheAfter, Lines, Changed;
    var screen := LastRows(rows, height);
    if FullRedraw(s, width, height) || ImagesChanged(screen, s.previous) {
      FrameWithinLimits(s, rows, width, height);
    } else {
      SameImagesVisible(screen, s.previous);
      SameCacheWithin(s, Render(s, rows, width, height).next, VisibleIds(screen));
    }
  }

  lemma SameCacheWithin(a: Screen, b: Screen, visible: set<nat>)
    requires a.cache == b.cache
    ensures WithinLimits(a, visible) == WithinLimits(b, visible)
  {
  }

  ghost predicate NeverShrinks(t: Terminal, events: seq<Event>) {
    events != [] ==>
      var before, e := events[..|events| - 1], events[|events| - 1];
      && NeverShrinks(t, before)
      && (e.Draw? ==> !Shrinks(Happened(t, before).screen, e.rows, e.width, e.height))
  }

  /** Over any run in which no frame shrinks, after every frame the images off the
      screen are within all three limits and every image on it is listed. */
  lemma {:induction false} LimitsHoldOverRuns(t: Terminal, events: seq<Event>)
    requires NeverShrinks(t, events)
    ensures var s := Happened(t, events).screen;
      && (s.previous == [] || LimitsKept(s))
      && (events != [] && events[|events| - 1].Draw? ==> LimitsKept(s))
  {
    hide Render, LimitsKept, Apply, AllAsNeeded, Shrinks;
    if events != [] {
      var e := events[|events| - 1];
      LimitsHoldOverRuns(t, events[..|events| - 1]);
      if e.Draw? { FrameKeepsLimits(Happened(t, events[..|events| - 1]).screen, e.rows, e.width, e.height); }
    }
  }

  /** Frames that fill the height, as laid out frames do, never shrink. */
  lemma {:induction false} FullFramesNeverShrink(t: Terminal, events: seq<Event>)
    requires forall i :: 0 <= i < |events| && events[i].Draw? ==> |events[i].rows| >= events[i].height
    ensures NeverShrinks(t, events)
    ensures var s := Happened(t, events).screen; |s.previous| <= s.height
  {
    hide Apply, AllAsNeeded, ImagesChanged, Evict, CacheAfter, Lines, Changed;
    if events != [] { FullFramesNeverShrink(t, events[..|events| - 1]); }
  }

  /** So with frames that fill the height the limits hold after every frame. */
  lemma FullFramesKeepLimits(t: Terminal, events: seq<Event>)
    requires forall i :: 0 <= i < |events| && events[i].Draw? ==> |events[i].rows| >= events[i].height
    requires events != [] && events[|events| - 1].Draw?
    ensures LimitsKept(Happened(t, events).screen)
  {
    hide LimitsKept, NeverShrinks;
    FullFramesNeverShrink(t, events);
    LimitsHoldOverRuns(t, events);
  }

  // n rows of text, the last of them replaced by an image if there is one.
  function Rows(n: nat, image: Option<Image>): seq<Row> {
    seq(n, i requires 0 <= i < n => if i == n - 1 && image.Some? then Placement(image.value, 0) else Text(0))
  }

  const LARGE := Image(1, 1, MAX_TRANSMITTED + 1, 0)

  function TwoFrames(s: Screen, first: seq<Row>, second: seq<Row>, width: nat, height: nat): Screen {
    Render(Render(s, first, width, height).next, second, width, height).next
  }

  lemma LargeImageIsCached(n: nat, width: nat, height: nat)
    requires 0 < n <= height
    ensures Render(Screen([], [], 0, 0), Rows(n, Some(LARGE)), width, height).next == Screen([LARGE], Rows(n, Some(LARGE)), width, height)
  {
    var rows := Rows(n, Some(LARGE));
    TextTouchesNothing(rows[..n - 1]);
    assert rows[n - 1] == Placement(LARGE, 0);
    assert CacheAfter([], rows) == [LARGE];
    assert LARGE.id in VisibleIds(rows);
    EmptyIsWithin();
  }

  lemma {:induction false} TextTouchesNothing(rows: seq<Row>)
    requires forall i :: 0 <= i < |rows| ==> rows[i].Text?
    ensures forall cache :: CacheAfter(cache, rows) == cache
    ensures VisibleIds(rows) == {}
  {
    if rows != [] { TextTouchesNothing(rows[..|rows| - 1]); }
  }

  // The image goes out of sight with its row, and nothing is evicted.
  lemma ShrinkingCanExceed(n: nat, m: nat, width: nat, height: nat)
    requires m < n <= height
    ensures !LimitsKept(TwoFrames(Screen([], [], 0, 0), Rows(n, Some(LARGE)), Rows(m, None), width, height))
  {
    LargeImageIsCached(n, width, height);
    TextTouchesNothing(Rows(m, None));
    LargeIsOver();
  }

  lemma LargeIsOver()
    ensures OverLimits(Offscreen([LARGE], {}))
  {
    assert [LARGE][1..] == [];
  }

  lemma GrowingKeeps(first: seq<Row>, second: seq<Row>, width: nat, height: nat)
    requires Min(|second|, height) >= Min(|first|, height)
    ensures LimitsKept(TwoFrames(Screen([], [], 0, 0), first, second, width, height))
  {
    hide LimitsKept, Render;
    var start := Screen([], [], 0, 0);
    FrameKeepsLimits(start, first, width, height);
    ShownRows(start, first, width, height);
    FrameKeepsLimits(Render(start, first, width, height).next, second, width, height);
  }

  lemma ShownRows(s: Screen, rows: seq<Row>, width: nat, height: nat)
    ensures var next := Render(s, rows, width, height).next;
      next.previous == LastRows(rows, height) && |next.previous| == Min(|rows|, height)
  {
  }

  lemma CutRows(s: Screen, n: nat, image: Option<Image>, width: nat, height: nat)
    ensures Render(s, Rows(n, image), width, height) == Render(s, Rows(Min(n, height), image), width, height)
  {
    var rows, shorter := Rows(n, image), Rows(Min(n, height), image);
    assert LastRows(rows, height) == shorter == LastRows(shorter, height);
  }

  /** Which frames may follow each other: whatever images they hold, two frames of the
      same size keep the limits exactly when the second shows no fewer rows. */
  lemma LimitsNeedFullFrames(n: nat, m: nat, width: nat, height: nat)
    ensures (forall first, second :: |first| == n && |second| == m ==> LimitsKept(TwoFrames(Screen([], [], 0, 0), first, second, width, height)))
      <==> Min(m, height) >= Min(n, height)
  {
    hide LimitsKept, Render;
    var a, b := Min(n, height), Min(m, height);
    if b >= a {
      forall first, second | |first| == n && |second| == m
        ensures LimitsKept(TwoFrames(Screen([], [], 0, 0), first, second, width, height))
      {
        GrowingKeeps(first, second, width, height);
      }
    } else {
      var first := Rows(n, Some(LARGE));
      ShrinkingCanExceed(a, b, width, height);
      CutRows(Screen([], [], 0, 0), n, Some(LARGE), width, height);
      assert |first| == n && |Rows(m, None)| == m;
    }
  }

  // ---------------------------------------------------------------- the renderer's state

  lemma {:induction false} OffscreenAppends(cache: Cache, image: Image, visible: set<nat>)
    ensures image.id in visible ==> Offscreen(cache + [image], visible) == Offscreen(cache, visible)
    ensures image.id !in visible ==> Offscreen(cache + [image], visible) == Offscreen(cache, visible) + [image]
  {
    hide Offscreen, Onscreen, OldestOffscreen;
    FilterUnfolds(cache, visible);
    FilterUnfolds(cache + [image], visible);
    if cache == [] {
      assert cache + [image] == [image] && [image][1..] == [];
      FilterUnfolds([], visible);
    } else {
      assert (cache + [image])[1..] == cache[1..] + [image] && (cache + [image])[0] == cache[0];
      OffscreenAppends(cache[1..], image, visible);
    }
  }

  lemma {:induction false} TotalsAppend(cache: Cache, image: Image)
    ensures Transmitted(cache + [image]) == Transmitted(cache) + image.transmitted
    ensures Decoded(cache + [image]) == Decoded(cache) + image.decoded
  {
    if cache == [] {
      assert cache + [image] == [image];
    } else {
      assert (cache + [image])[1..] == cache[1..] + [image];
      TotalsAppend(cache[1..], image);
    }
  }

  lemma TotalsOfNone(visible: set<nat>)
    ensures Offscreen([], visible) == [] && Transmitted([]) == 0 && Decoded([]) == 0
  {
  }

  class Renderer {
    var uploadedKittyImages: Cache
    var previousScreen: seq<Row>
    var previousScreenWidth: nat
    var previousScreenHeight: nat

    ghost function State(): Screen
      reads this
    {
      Screen(uploadedKittyImages, previousScreen, previousScreenWidth, previousScreenHeight)
    }

    constructor ()
      ensures State() == Screen([], [], 0, 0)
    {
      uploadedKittyImages, previousScreen, previousScreenWidth, previousScreenHeight := [], [], 0, 0;
    }

    method CachedKittyImageIndex(id: nat) returns (index: int)
      ensures index == IndexOf(uploadedKittyImages, id)
    {
      for i := 0 to |uploadedKittyImages|
        invariant IndexOf(uploadedKittyImages, id) == if IndexOf(uploadedKittyImages[i..], id) < 0 then -1 else IndexOf(uploadedKittyImages[i..], id) + i
      {
        assert uploadedKittyImages[i..][1..] == uploadedKittyImages[i + 1..];
        if uploadedKittyImages[i].id == id { return i; }
      }
      return -1;
    }

    method PrepareKittyScreen(screen: seq<Row>) returns (lines: seq<Command>, deletions: seq<Command>)
      modifies this`uploadedKittyImages
      ensures lines == Lines(old(uploadedKittyImages), screen)
      ensures var e := Evict(CacheAfter(old(uploadedKittyImages), screen), VisibleIds(screen));
        uploadedKittyImages == e.cache && deletions == e.deletions
    {
      hide IndexOf, Touch, RowCommand, Evict;
      var visible: set<nat> := {};
      lines := [];
      ghost var before := uploadedKittyImages;
      for index := 0 to |screen|
        invariant uploadedKittyImages == CacheAfter(before, screen[..index])
        invariant visible == VisibleIds(screen[..index])
        invariant lines == Lines(before, screen[..index])
      {
        assert screen[..index + 1][..index] == screen[..index];
        var row := screen[index];
        var line := Place(row);
        if row.Placement? { visible := visible + {row.image.id}; }
        lines := lines + [line];
      }
      assert screen[..|screen|] == screen;
      deletions := EvictOffscreen(visible);
    }

    method Place(row: Row) returns (line: Command)
      modifies this`uploadedKittyImages
      ensures line == RowCommand(old(uploadedKittyImages), row)
      ensures uploadedKittyImages == if row.Text? then old(uploadedKittyImages) else Touch(old(uploadedKittyImages), row.image)
    {
      if row.Text? { return Plain(row.line); }
      var cacheIndex := CachedKittyImageIndex(row.image.id);
      line := Transmit(row.image);
      if cacheIndex != -1 {
        if uploadedKittyImages[cacheIndex].generation == row.image.generation { line := Show(row.image); }
        uploadedKittyImages := uploadedKittyImages[..cacheIndex] + uploadedKittyImages[cacheIndex + 1..];
      }
      uploadedKittyImages := uploadedKittyImages + [row.image];
    }

    method OffscreenTotals(visible: set<nat>) returns (count: int, transmitted: int, decoded: int)
      ensures var off := Offscreen(uploadedKittyImages, visible);
        count == |off| && transmitted == Transmitted(off) && decoded == Decoded(off)
    {
      hide Offscreen, Transmitted, Decoded;
      TotalsOfNone(visible);
      count, transmitted, decoded := 0, 0, 0;
      for i := 0 to |uploadedKittyImages|
        invariant var off := Offscreen(uploadedKittyImages[..i], visible);
          count == |off| && transmitted == Transmitted(off) && decoded == Decoded(off)
      {
        var cached := uploadedKittyImages[i];
        assert uploadedKittyImages[..i + 1] == uploadedKittyImages[..i] + [cached];
        OffscreenAppends(uploadedKittyImages[..i], cached, visible);
        if !(cached.id in visible) {
          TotalsAppend(Offscreen(uploadedKittyImages[..i], visible), cached);
          count, transmitted, decoded := count + 1, transmitted + cached.transmitted, decoded + cached.decoded;
        }
      }
      assert uploadedKittyImages[..|uploadedKittyImages|] == uploadedKittyImages;
    }

    method FirstOffscreen(visible: set<nat>) returns (index: int)
      ensures index == OldestOffscreen(uploadedKittyImages, visible)
    {
      for i := 0 to |uploadedKittyImages|
        invariant OldestOffscreen(uploadedKittyImages, visible)
          == if OldestOffscreen(uploadedKittyImages[i..], visible) < 0 then -1 else OldestOffscreen(uploadedKittyImages[i..], visible) + i
      {
        assert uploadedKittyImages[i..][1..] == uploadedKittyImages[i + 1..];
        if uploadedKittyImages[i].id !in visible { return i; }
      }
      return -1;
    }

    // Running totals stand for the sums over what is left off the screen, so the
    // source's exit for an index of -1 is never taken.
    method EvictOffscreen(visible: set<nat>) returns (deletions: seq<Command>)
      modifies this`uploadedKittyImages
      ensures var e := Evict(old(uploadedKittyImages), visible); uploadedKittyImages == e.cache && deletions == e.deletions
    {
      hide Offscreen, OldestOffscreen, Transmitted, Decoded, Evict, Onscreen, RemoveAt;
      deletions := [];
      var count, transmitted, decoded := OffscreenTotals(visible);
      ghost var target := Evict(uploadedKittyImages, visible);
      assert [] + target.deletions == target.deletions;
      while count > MAX_IMAGES || transmitted > MAX_TRANSMITTED || decoded > MAX_DECODED
        invariant var off := Offscreen(uploadedKittyImages, visible);
          count == |off| && transmitted == Transmitted(off) && decoded == Decoded(off)
        invariant EvictsTo(uploadedKittyImages, visible, deletions, target)
        decreases |uploadedKittyImages|
      {
        var evictIndex := FirstOffscreen(visible);
        EvictionStep(uploadedKittyImages, visible, deletions, target);
        var cached := uploadedKittyImages[evictIndex];
        deletions := deletions + [Delete(cached.id)];
        uploadedKittyImages := Removed(uploadedKittyImages, evictIndex);
        count, transmitted, decoded := count - 1, transmitted - cached.transmitted, decoded - cached.decoded;
      }
      EvictStops(uploadedKittyImages, visible);
      assert deletions + [] == deletions;
    }

    /** The part of a frame that concerns images. */
    method RenderAltScreen(rows: seq<Row>, width: nat, height: nat) returns (commands: seq<Command>)
      modifies this
      ensures Frame(State(), commands) == Render(old(State()), rows, width, height)
    {
      hide Evict, CacheAfter, Lines, VisibleIds, Changed;
      var screen := LastRows(rows, height);
      var fullRedraw := previousScreen == [] || previousScreenWidth != width || previousScreenHeight != height;
      var redrawImages := fullRedraw || ImagesChanged(screen, previousScreen);
      var hadUploaded := uploadedKittyImages != [];
      if redrawImages {
        commands := [if fullRedraw && !hadUploaded then DeleteAll else DeletePlacements];
        if fullRedraw { commands := commands + [ClearScreen]; }
        var lines, deletions := PrepareKittyScreen(screen);
        var placed := WritePlaced(lines, height);
        commands := commands + (deletions + placed);
      } else {
        commands := WriteChanged(screen, previousScreen, height);
      }
      previousScreen, previousScreenWidth, previousScreenHeight := screen, width, height;
    }
  }

  lemma TotalsPrepend(image: Image, rest: Cache)
    ensures Transmitted([image] + rest) == image.transmitted + Transmitted(rest)
    ensures Decoded([image] + rest) == image.decoded + Decoded(rest)
  {
    assert ([image] + rest)[1..] == rest;
  }

  method Removed(cache: Cache, i: nat) returns (rest: Cache)
    requires i < |cache|
    ensures rest == RemoveAt(cache, i) && |rest| == |cache| - 1
  {
    rest := cache[..i] + cache[i + 1..];
  }

  // The evictions made so far and those still due are the ones aimed at.
  ghost predicate EvictsTo(cache: Cache, visible: set<nat>, deletions: seq<Command>, target: Eviction) {
    var e := Evict(cache, visible);
    target.cache == e.cache && target.deletions == deletions + e.deletions
  }

  lemma EvictStops(cache: Cache, visible: set<nat>)
    requires !OverLimits(Offscreen(cache, visible))
    ensures Evict(cache, visible) == Eviction(cache, [])
  {
    hide Offscreen, OverLimits;
  }

  lemma EvictionStep(cache: Cache, visible: set<nat>, deletions: seq<Command>, target: Eviction)
    requires OverLimits(Offscreen(cache, visible)) && EvictsTo(cache, visible, deletions, target)
    ensures var i := OldestOffscreen(cache, visible);
      && i >= 0 && EvictsTo(RemoveAt(cache, i), visible, deletions + [Delete(cache[i].id)], target)
      && var off, rest := Offscreen(cache, visible), Offscreen(RemoveAt(cache, i), visible);
        |rest| == |off| - 1 && Transmitted(rest) == Transmitted(off) - cache[i].transmitted
        && Decoded(rest) == Decoded(off) - cache[i].decoded
  {
    hide Offscreen, OldestOffscreen, OverLimits, RemoveAt, Onscreen, Transmitted, Decoded;
    EvictionNeverStuck(cache, visible);
    OffscreenStep(cache, visible);
    var i := OldestOffscreen(cache, visible);
    TotalsPrepend(cache[i], Offscreen(RemoveAt(cache, i), visible));
    var e := Evict(RemoveAt(cache, i), visible);
    assert deletions + ([Delete(cache[i].id)] + e.deletions) == deletions + [Delete(cache[i].id)] + e.deletions;
  }

  method WritePlaced(lines: seq<Command>, height: nat) returns (commands: seq<Command>)
    ensures commands == Placed(lines, height)
  {
    commands := [];
    for row := 0 to height
      invariant commands == Placed(lines, row)
    {
      commands := commands + [At(row), if row < |lines| then lines[row] else Plain(0)];
    }
  }

  method WriteChanged(screen: seq<Row>, previous: seq<Row>, height: nat) returns (commands: seq<Command>)
    ensures commands == Changed(screen, previous, height)
  {
    commands := [];
    for row := 0 to height
      invariant commands == Changed(screen, previous, row)
    {
      var line := RowAt(screen, row);
      if !(row < |previous| && line == previous[row]) {
        commands := commands + [At(row), if line.Placement? then Transmit(line.image) else Plain(line.line)];
      }
    }
  }
}
