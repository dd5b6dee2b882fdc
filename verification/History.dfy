/** The history of mu/lib/editline.mu4: a circular doubly linked list of counted strings,
    laid down from the end of the heap towards its start, with an empty line as its root. */
module History {
  import opened Bytes

  /** Counting positions from the oldest line; n is the root's. */
  function Before(at: nat, n: nat): nat { if at == 0 then n else at - 1 }

  function After(at: nat, n: nat): nat { if at == n then 0 else at + 1 }

  /** prev, next, and the counted string, rounded up to cells. */
  function NodeSize(count: nat): (s: nat)
    ensures s % 8 == 0 && s >= 24
  {
    16 + (1 + count + 7) / 8 * 8
  }

  /** Two links, a count byte and the characters, and less than a cell more. */
  lemma NodeRoom(count: nat)
    ensures 17 + count <= NodeSize(count) < 25 + count
  {}

  function Capped(line: seq<Byte>): seq<Byte> { if |line| <= 255 then line else line[..255] }

  class List {
    const root: nat
    var links: map<nat, nat>              // the cells at these addresses
    var strings: map<nat, seq<Byte>>      // the counted strings at these addresses
    var last: nat                         // cl-last
    ghost var order: seq<nat>             // the nodes, oldest first
    ghost var texts: seq<seq<Byte>>

    ghost function Node(at: nat): nat
      reads this
    {
      if at < |order| then order[at] else root
    }

    ghost function Text(at: nat): seq<Byte>
      reads this
    {
      if at < |texts| then texts[at] else []
    }

    /** Node number at is linked to its two neighbours and holds its line. */
    ghost predicate Linked(at: nat)
      reads this
    {
      var a := Node(at);
      a in links && links[a] == Node(Before(at, |order|))
      && a + 8 in links && links[a + 8] == Node(After(at, |order|))
      && a + 16 in strings && strings[a + 16] == Text(at)
    }

    /** Node number at lies above the root and below the next older one. */
    ghost predicate InPlace(at: nat)
      reads this
      requires at < |order| && |order| == |texts|
    {
      order[at] % 8 == 0 && root + 24 <= last <= order[at] && |texts[at]| <= 255
      && forall k :: 0 <= k < at ==> order[at] + NodeSize(|texts[at]|) <= order[k]
    }

    ghost predicate Valid()
      reads this
    {
      |order| == |texts| && root % 8 == 0 && last % 8 == 0 && root + 24 <= last
      && (forall at :: 0 <= at <= |order| ==> Linked(at))
      && (forall at :: 0 <= at < |order| ==> InPlace(at))
    }

    /** create cl-root  here dup , ,  0 , */
    constructor (root: nat, end: nat)
      requires root % 8 == 0 && end % 8 == 0 && root + 24 <= end
      ensures Valid() && order == [] && texts == [] && last == end && this.root == root
    {
      this.root := root;
      links := map[root := root, root + 8 := root];
      strings := map[root + 16 := []];
      last := end;
      order, texts := [], [];
    }

    /** The previous node: up from the root is the newest line, up from the oldest the root. */
    method Prev(ghost at: nat, node: nat) returns (p: nat)
      requires Valid() && at <= |order| && node == Node(at)
      ensures Before(at, |order|) <= |order| && p == Node(Before(at, |order|))
    {
      assert Linked(at);
      p := links[node];
    }

    method Next(ghost at: nat, node: nat) returns (n: nat)
      requires Valid() && at <= |order| && node == Node(at)
      ensures After(at, |order|) <= |order| && n == Node(After(at, |order|))
    {
      assert Linked(at);
      n := links[node + 8];
    }

    method Fetch(ghost at: nat, node: nat) returns (line: seq<Byte>)
      requires Valid() && at <= |order| && node == Node(at)
      ensures line == Text(at) && |line| <= 255
    {
      assert Linked(at);
      assert at < |order| ==> InPlace(at);
      line := strings[node + 16];
    }

    /** Addresses of different nodes are at least two cells apart. */
    lemma Apart(i: nat, j: nat)
      requires Valid() && i < j <= |order|
      ensures Node(i) + 16 <= Node(j) || Node(j) + 16 <= Node(i)
    {
      assert InPlace(i);
      if j < |order| { assert InPlace(j); }
    }

    /** What a valid list says about its cells, as values. */
    lemma Snapshot()
      requires Valid()
      ensures root in links && root + 8 in links && root + 16 in strings && strings[root + 16] == []
      ensures forall k :: 0 <= k < |order| ==> WasLinked(links, strings, order, texts, k)
      ensures links[root] == At(order, Before(|order|, |order|)) &&
             links[root + 8] == At(order, After(|order|, |order|))
      ensures forall i, j :: 0 <= i < j < |order| ==> order[j] + 24 <= order[i]
      ensures forall k :: 0 <= k < |order| ==> last <= order[k]
    {
      assert Linked(|order|);
      forall k | 0 <= k < |order| ensures WasLinked(links, strings, order, texts, k) { assert Linked(k); }
      forall i, j | 0 <= i < j < |order| ensures order[j] + 24 <= order[i] { assert InPlace(j); }
      forall k | 0 <= k < |order| ensures last <= order[k] { assert InPlace(k); }
    }

    /** cl>history  A line that is not empty becomes the newest. */
    method Add(line: seq<Byte>)
      requires Valid() && root + 24 + NodeSize(|Capped(line)|) <= last
      modifies this
      ensures Valid()
      ensures texts == if line == [] then old(texts) else old(texts) + [Capped(line)]
      ensures line != [] ==> order == old(order) + [last] && last == old(last) - NodeSize(|Capped(line)|)
      ensures line == [] ==> order == old(order) && last == old(last)
    {
      hide NodeSize;
      if line != [] { AddText(Capped(line)); }
    }

    method AddText(text: seq<Byte>)
      requires Valid() && root + 24 + NodeSize(|text|) <= last && |text| <= 255
      modifies this
      ensures Valid() && texts == old(texts) + [text]
      ensures order == old(order) + [last] && last == old(last) - NodeSize(|text|)
    {
      hide NodeSize, Linked, InPlace, WasLinked;
      Snapshot();
      Places();
      ghost var links0, strings0, order0, texts0, last0 := links, strings, order, texts, last;
      last := last - NodeSize(|text|);
      var node := last;
      links := links[node := links[root]];
      links := links[node + 8 := root];
      strings := strings[node + 16 := text];
      links := links[root := node];
      links := links[links[node] + 8 := node];
      order, texts := order + [node], texts + [text];
      forall at | 0 <= at <= |order| ensures Linked(at) {
        LinkedAfter(links0, strings0, order0, texts0, at, node, text);
      }
      forall at | 0 <= at < |order| ensures InPlace(at) {
        InPlaceAfter(order0, texts0, last0, at, text);
      }
    }

    ghost predicate WasInPlace(order0: seq<nat>, texts0: seq<seq<Byte>>, last0: nat, at: nat)
      requires at < |order0| == |texts0|
    {
      order0[at] % 8 == 0 && root + 24 <= last0 <= order0[at] && |texts0[at]| <= 255
      && forall k :: 0 <= k < at ==> order0[at] + NodeSize(|texts0[at]|) <= order0[k]
    }

    lemma Places()
      requires Valid()
      ensures forall at :: 0 <= at < |order| ==> WasInPlace(order, texts, last, at)
    {
      forall at | 0 <= at < |order| ensures WasInPlace(order, texts, last, at) { assert InPlace(at); }
    }

    /** After adding, every node is where it should be. */
    lemma InPlaceAfter(order0: seq<nat>, texts0: seq<seq<Byte>>, last0: nat, at: nat, text: seq<Byte>)
      requires |texts0| == |order0| && at <= |order0| && |text| <= 255
      requires forall k :: 0 <= k < |order0| ==> WasInPlace(order0, texts0, last0, k)
      requires root + 24 <= last && last % 8 == 0 && last + NodeSize(|text|) == last0
      requires order == order0 + [last] && texts == texts0 + [text]
      ensures InPlace(at)
    {
      hide NodeSize;
      if at < |order0| {
        assert WasInPlace(order0, texts0, last0, at);
      } else {
        forall k | 0 <= k < at ensures last + NodeSize(|text|) <= order[k] {
          assert WasInPlace(order0, texts0, last0, k);
        }
      }
    }

    /** After adding, every node is linked as it should be. */
    lemma LinkedAfter(links0: map<nat, nat>, strings0: map<nat, seq<Byte>>, order0: seq<nat>, texts0: seq<seq<Byte>>,
                      at: nat, node: nat, text: seq<Byte>)
      requires at <= |order0| + 1 && |texts0| == |order0|
      requires order == order0 + [node] && texts == texts0 + [text]
      requires root in links0 && root + 8 in links0 && root + 16 in strings0 && strings0[root + 16] == []
      requires forall k :: 0 <= k < |order0| ==> WasLinked(links0, strings0, order0, texts0, k)
      requires links0[root] == At(order0, Before(|order0|, |order0|)) &&
             links0[root + 8] == At(order0, After(|order0|, |order0|))
      requires links == links0[node := links0[root]][node + 8 := root][root := node][links0[root] + 8 := node]
      requires strings == strings0[node + 16 := text]
      requires root + 24 <= node && forall k :: 0 <= k < |order0| ==> node + 24 <= order0[k]
      requires forall i, j :: 0 <= i < j < |order0| ==> order0[j] + 24 <= order0[i]
      ensures Linked(at)
    {
      var n := |order0|;
      if at < n {
        assert WasLinked(links0, strings0, order0, texts0, at);
        assert order[at] == order0[at];
      }
    }

    ghost function At(order0: seq<nat>, at: nat): nat { if at < |order0| then order0[at] else root }

    ghost predicate WasLinked(links0: map<nat, nat>, strings0: map<nat, seq<Byte>>, order0: seq<nat>,
                              texts0: seq<seq<Byte>>, k: nat)
      requires k < |order0| == |texts0|
    {
      var a := order0[k];
      a in links0 && links0[a] == At(order0, Before(k, |order0|))
      && a + 8 in links0 && links0[a + 8] == At(order0, After(k, |order0|))
      && a + 16 in strings0 && strings0[a + 16] == texts0[k]
    }
  }
}
