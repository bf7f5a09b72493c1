/** The directories of a source, by number: what its entries contribute to their link counts. */
module SfsDirs {
  import opened SfsModel
  import opened SfsRoundTrip

  /** Links from the "." and the entry of directories numbered `g`, and from the ".." of their subdirectories. */
  function OwnLinks(node: Node, g: nat): nat
    decreases node, 1
  {
    match node
    case Dir(h, sub) => (if h == g then 2 + Subdirs(sub) else 0) + ListOwnLinks(sub, g)
    case _ => 0
  }

  function ListOwnLinks(es: Listing, g: nat): nat
    decreases es, 0
  {
    match es
    case End => 0
    case Item(name, node, rest) => (if Skipped(name, node) then 0 else OwnLinks(node, g)) + ListOwnLinks(rest, g)
  }

  /** Regular files of number `g` met while a directory is filed under it: each entry adds a link to that directory. */
  function Strays(node: Node, m: Seen, g: nat): nat
    decreases node, 1
  {
    match node
    case File(h, chunks) => if h == g && Taken(m, h, chunks).Directory? then 1 else 0
    case Dir(h, sub) => ListStrays(sub, m[h := Directory], g)
    case _ => 0
  }

  function ListStrays(es: Listing, m: Seen, g: nat): nat
    decreases es, 0
  {
    match es
    case End => 0
    case Item(name, node, rest) =>
      if Skipped(name, node) then ListStrays(rest, m, g)
      else Strays(node, m, g) + ListStrays(rest, TrackNode(node, m), g)
  }

  /** Every directory has a number that is new when it is met. */
  predicate Fresh(node: Node, m: Seen)
    decreases node, 1
  {
    match node
    case Dir(h, sub) => h !in m && ListFresh(sub, m[h := Directory])
    case _ => true
  }

  predicate ListFresh(es: Listing, m: Seen)
    decreases es, 0
  {
    match es
    case End => true
    case Item(name, node, rest) =>
      if Skipped(name, node) then ListFresh(rest, m)
      else Fresh(node, m) && ListFresh(rest, TrackNode(node, m))
  }

  /** Files that are told apart link no directory. */
  lemma {:induction false} NoStrays(node: Node, m: Seen, g: nat)
    requires NodeToldApart(node, m)
    ensures Strays(node, m, g) == 0
    decreases node, 1
  {
    if node.Dir? {
      NoStraysIn(node.entries, m[node.host := Directory], g);
    }
  }

  lemma {:induction false} NoStraysIn(es: Listing, m: Seen, g: nat)
    requires ToldApart(es, m)
    ensures ListStrays(es, m, g) == 0
    decreases es, 0
  {
    match es
    case End =>
    case Item(name, node, rest) =>
      if Skipped(name, node) {
        NoStraysIn(rest, m, g);
      } else {
        NoStrays(node, m, g);
        NoStraysIn(rest, TrackNode(node, m), g);
      }
  }

  // ----- no number is used for two directories

  lemma {:induction false} TrackGrows(node: Node, m: Seen)
    ensures m.Keys <= TrackNode(node, m).Keys
    decreases node, 1
  {
    if node.Dir? {
      TrackListGrows(node.entries, m[node.host := Directory]);
    }
  }

  lemma {:induction false} TrackListGrows(es: Listing, m: Seen)
    ensures m.Keys <= TrackList(es, m).Keys
    decreases es, 0
  {
    match es
    case End =>
    case Item(name, node, rest) =>
      TrackGrows(node, m);
      TrackListGrows(rest, if Skipped(name, node) then m else TrackNode(node, m));
  }

  /** Numbers known before a visit, or not known behind it, are no numbers of directories visited. */
  lemma {:induction false} NotOwned(node: Node, m: Seen, g: nat)
    requires Fresh(node, m) && (g in m || g !in TrackNode(node, m))
    ensures OwnLinks(node, g) == 0
    decreases node, 1
  {
    if node.Dir? {
      TrackListGrows(node.entries, m[node.host := Directory]);
      ListNotOwned(node.entries, m[node.host := Directory], g);
    }
  }

  lemma {:induction false} ListNotOwned(es: Listing, m: Seen, g: nat)
    requires ListFresh(es, m) && (g in m || g !in TrackList(es, m))
    ensures ListOwnLinks(es, g) == 0
    decreases es, 0
  {
    match es
    case End =>
    case Item(name, node, rest) =>
      if Skipped(name, node) {
        ListNotOwned(rest, m, g);
      } else {
        var m' := TrackNode(node, m);
        TrackGrows(node, m);
        TrackListGrows(rest, m');
        NotOwned(node, m, g);
        ListNotOwned(rest, m', g);
      }
  }

  /** Every directory of the node is the only one of its number in all of the source. */
  predicate Alone(node: Node, root: Node)
    decreases node, 1
  {
    match node
    case Dir(h, sub) => OwnLinks(root, h) == 2 + Subdirs(sub) && ListAlone(sub, root)
    case _ => true
  }

  predicate ListAlone(es: Listing, root: Node)
    decreases es, 0
  {
    match es
    case End => true
    case Item(name, node, rest) => (Skipped(name, node) || Alone(node, root)) && ListAlone(rest, root)
  }

  /** Links to the numbers that become known in this node come from this node. */
  ghost predicate Owns(node: Node, m: Seen, root: Node) {
    forall g: nat :: g !in m && g in TrackNode(node, m) ==> OwnLinks(root, g) == OwnLinks(node, g)
  }

  ghost predicate ListOwns(es: Listing, m: Seen, root: Node) {
    forall g: nat :: g !in m && g in TrackList(es, m) ==> OwnLinks(root, g) == ListOwnLinks(es, g)
  }

  lemma {:induction false} AloneIfFresh(node: Node, m: Seen, root: Node)
    requires Fresh(node, m) && Owns(node, m, root)
    ensures Alone(node, root)
    decreases node, 1
  {
    if node.Dir? {
      var m1 := m[node.host := Directory];
      TrackListGrows(node.entries, m1);
      ListNotOwned(node.entries, m1, node.host);
      ListAloneIfFresh(node.entries, m1, root);
    }
  }

  lemma {:induction false} ListAloneIfFresh(es: Listing, m: Seen, root: Node)
    requires ListFresh(es, m) && ListOwns(es, m, root)
    ensures ListAlone(es, root)
    decreases es, 0
  {
    match es
    case End =>
    case Item(name, node, rest) =>
      if Skipped(name, node) {
        ListAloneIfFresh(rest, m, root);
      } else {
        var m' := TrackNode(node, m);
        TrackGrows(node, m);
        TrackListGrows(rest, m');
        forall g: nat | g !in m && g in m' ensures OwnLinks(root, g) == OwnLinks(node, g) {
          ListNotOwned(rest, m', g);
        }
        AloneIfFresh(node, m, root);
        forall g: nat | g !in m' && g in TrackList(rest, m') ensures OwnLinks(root, g) == ListOwnLinks(rest, g) {
          NotOwned(node, m, g);
        }
        ListAloneIfFresh(rest, m', root);
      }
  }
}
