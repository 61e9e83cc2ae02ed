/** Fork processing against one peer: searching the common ancestor piece by piece, downloading the peer's
    blocks window by window, and choosing the blocks that are offered for adding. */
module ForkSync {

  import opened Collections
  import opened Epochs
  import opened ChainStore
  import opened ChainAction

  const PIECE_LENGTH: nat := 10
  const MAX_REQ_BLOCKS: nat := 16
  const ACTIVATE_GAP: nat := 1

  // ----- How many blocks a peer is asked for

  /** The request size grows by one on success and falls by four on a timeout. */
  function UpdateReqCount(count: int, increase: bool): (r: int)
    requires 1 <= count <= MAX_REQ_BLOCKS
    ensures 1 <= r <= MAX_REQ_BLOCKS
    ensures increase ==> r == if count < MAX_REQ_BLOCKS then count + 1 else count
    ensures !increase ==> r == if count > 4 then count - 4 else 1
  {
    if !increase then (if count - 4 <= 0 then 1 else count - 4)
    else if count + 1 > MAX_REQ_BLOCKS then MAX_REQ_BLOCKS else count + 1
  }

  // ----- Searching the ancestor

  predicate Common(peer: seq<Block>, h: Hash) { h in Hashes(peer) }

  /** The hashes of `count` blocks of the chain from index `t` downwards. */
  function Piece(chain: seq<Block>, t: nat, count: nat): seq<Hash>
    requires t < |chain| && count <= t + 1
  {
    seq(count, i requires 0 <= i < count => chain[t - i].header.hash)
  }

  function PieceLength(t: nat): nat {
    if t + 1 < PIECE_LENGTH then t + 1 else PIECE_LENGTH
  }

  /** Collects the hashes to ask for by walking down the header index. */
  method LocalPiece(ix: Indexes, top: Hash, ghost chain: seq<Block>, ghost t: nat) returns (piece: seq<Hash>)
    requires Describes(ix, chain) && chain[0].header.preHash !in ix.headers
    requires t < |chain| && chain[t].header.hash == top
    ensures piece == Piece(chain, t, PieceLength(t))
  {
    piece := [];
    var at := top;
    ghost var i := 0;
    while |piece| < PIECE_LENGTH && at in ix.headers
      invariant |piece| == i <= PieceLength(t) && piece == Piece(chain, t, i)
      invariant i <= t ==> at == chain[t - i].header.hash
      invariant i == t + 1 ==> at !in ix.headers
    {
      InChain(chain, t - i);
      assert Recorded(ix, chain[t - i]);
      var bh := ix.headers[at];
      piece := piece + [bh.hash];
      at := bh.preHash;
      i := i + 1;
      assert t - i >= 0 ==> chain[t - i + 1].header.preHash == chain[t - i].header.hash;
    }
    if i <= t { InChain(chain, t - i); }
  }

  /** The peer's answer to a piece: the first hash that it holds. */
  method FindCommon(peer: Indexes, piece: seq<Hash>) returns (r: Option<nat>)
    ensures r.None? ==> forall i :: 0 <= i < |piece| ==> piece[i] !in peer.headers
    ensures r.Some? ==> r.value < |piece| && piece[r.value] in peer.headers
                        && forall i :: 0 <= i < r.value ==> piece[i] !in peer.headers
  {
    var i := 0;
    while i < |piece|
      invariant 0 <= i <= |piece|
      invariant forall k :: 0 <= k < i ==> piece[k] !in peer.headers
    {
      if piece[i] in peer.headers { return Some(i); }
      i := i + 1;
    }
    return None;
  }

  /** `a` is the highest block of the local chain that the peer's chain contains too. */
  ghost predicate IsAncestor(chain: seq<Block>, peer: seq<Block>, a: nat) {
    && a < |chain| && Common(peer, chain[a].header.hash)
    && forall i {:trigger Common(peer, chain[i].header.hash)} :: a < i < |chain| ==> !Common(peer, chain[i].header.hash)
  }

  datatype Search = Accepted(hash: Hash) | Refused | GaveUp

  /** Sends one piece to the peer: it answers with the ancestor if the piece reaches down to it. */
  method AskPeer(
      ix: Indexes, peerIx: Indexes, top: Hash, ghost chain: seq<Block>, ghost peer: seq<Block>, ghost t: nat, ghost a: nat)
    returns (found: Option<Hash>, last: Hash, ghost b: nat)
    requires Describes(ix, chain) && Describes(peerIx, peer) && chain[0].header.preHash !in ix.headers
    requires IsAncestor(chain, peer, a) && a <= t < |chain| && chain[t].header.hash == top
    ensures found.Some? ==> found.value == chain[a].header.hash
    ensures found.None? ==> a < b <= t && last == chain[b].header.hash
  {
    var piece := LocalPiece(ix, top, chain, t);
    var r := FindCommon(peerIx, piece);
    b := t + 1 - |piece|;
    last := piece[|piece| - 1];
    InPiece(chain, piece, t, b);
    if r.Some? {
      FoundIsHighest(chain, peer, piece, t, a, r.value);
      InPiece(chain, piece, t, a);
      return Some(piece[r.value]), last, b;
    }
    NotInPiece(chain, peer, piece, t, a);
    return None, last, b;
  }

  /** Reads a header of the chain from the index. */
  method HeaderOf(ix: Indexes, hash: Hash, ghost chain: seq<Block>, ghost i: nat) returns (h: Header)
    requires Describes(ix, chain) && i < |chain| && chain[i].header.hash == hash
    ensures h == chain[i].header
    ensures i > 0 ==> h.preHash == chain[i - 1].header.hash
  {
    assert Recorded(ix, chain[i]);
    h := ix.headers[hash];
    assert i > 0 ==> chain[i].header.preHash == chain[i - 1].header.hash;
  }

  /** The whole search: pieces are sent downwards from the top until the peer finds a common block or the
      search passes the local checkpoint. It is accepted exactly when the highest common block is not below
      the checkpoint. */
  method FindAncestor(
      ix: Indexes, peerIx: Indexes, checkpoint: nat, ghost chain: seq<Block>, ghost peer: seq<Block>)
    returns (r: Search, ghost a: nat)
    requires Describes(ix, chain) && Describes(peerIx, peer) && chain[0].header.preHash !in ix.headers
    requires Common(peer, chain[0].header.hash)
    ensures IsAncestor(chain, peer, a)
    ensures r.Accepted? <==> checkpoint <= chain[a].header.height
    ensures r.Accepted? ==> r.hash == chain[a].header.hash
  {
    a := HighestCommon(chain, peer, |chain| - 1);
    var top := ix.current;
    ghost var t := |chain| - 1;
    while true
      invariant a <= t < |chain| && top == chain[t].header.hash
      decreases t
    {
      var found, last;
      ghost var b;
      found, last, b := AskPeer(ix, peerIx, top, chain, peer, t, a);
      if found.Some? {
        var ancestor := HeaderOf(ix, found.value, chain, a);
        if checkpoint > ancestor.height { return Refused, a; }
        return Accepted(ancestor.hash), a;
      }
      var bh := HeaderOf(ix, last, chain, b);
      if bh.height <= checkpoint {
        assert Ordered(chain[a], chain[b]);
        return GaveUp, a;
      }
      top := bh.preHash;
      t := b - 1;
    }
  }

  lemma {:induction false} HighestCommon(chain: seq<Block>, peer: seq<Block>, t: nat) returns (a: nat)
    requires t < |chain| && Common(peer, chain[0].header.hash)
    requires forall i {:trigger Common(peer, chain[i].header.hash)} :: t < i < |chain| ==> !Common(peer, chain[i].header.hash)
    ensures IsAncestor(chain, peer, a) && a <= t
    decreases t
  {
    if Common(peer, chain[t].header.hash) { return t; }
    a := HighestCommon(chain, peer, t - 1);
  }

  lemma InPiece(chain: seq<Block>, piece: seq<Hash>, t: nat, i: nat)
    requires i <= t < |chain| && piece == Piece(chain, t, PieceLength(t))
    ensures t - i < |piece| ==> piece[t - i] == chain[i].header.hash
  {
  }

  lemma FoundIsHighest(chain: seq<Block>, peer: seq<Block>, piece: seq<Hash>, t: nat, a: nat, i: nat)
    requires IsAncestor(chain, peer, a) && a <= t < |chain| && piece == Piece(chain, t, PieceLength(t))
    requires i < |piece| && Common(peer, piece[i]) && forall k :: 0 <= k < i ==> !Common(peer, piece[k])
    ensures t - i == a
  {
    InPiece(chain, piece, t, a);
    InPiece(chain, piece, t, t - i);
  }

  lemma NotInPiece(chain: seq<Block>, peer: seq<Block>, piece: seq<Hash>, t: nat, a: nat)
    requires IsAncestor(chain, peer, a) && a <= t < |chain| && piece == Piece(chain, t, PieceLength(t))
    requires forall k :: 0 <= k < |piece| ==> !Common(peer, piece[k])
    ensures a < t + 1 - |piece|
  {
    InPiece(chain, piece, t, a);
  }

  // ----- Downloading the peer's blocks

  /** The end of the requested heights, excluded: all of a short fork, otherwise the epochs whose groups the
      ancestor already determines. */
  function RequestEnd(length: Length, peerTop: nat, ancestor: nat): nat {
    var noHandle := EpochAt(length, ancestor) + ACTIVATE_GAP + 1;
    if EndOf(length, EpochAt(length, peerTop)) < EndOf(length, noHandle) then peerTop + 1 else StartOf(length, noHandle)
  }

  /** The request ends at the peer's top or at the end of the epoch after the ancestor's, whichever is lower. */
  lemma RequestEndIs(length: Length, peerTop: nat, ancestor: nat)
    requires ancestor <= peerTop
    ensures var limit := StartOf(length, EpochAt(length, ancestor) + 2);
            RequestEnd(length, peerTop, ancestor) == (if peerTop + 1 < limit then peerTop + 1 else limit)
    ensures RequestEnd(length, peerTop, ancestor) > ancestor
  {
    var e, n := EpochAt(length, peerTop), EpochAt(length, ancestor) + 2;
    BeforeStart(length, peerTop, n);
    BeforeStart(length, ancestor, n);
    if e < n { TimesRises(e + 1, n, length); TimesRises(e, e, length); } else { TimesRises(n, e, length); }
    TimesRises(n, n, length);
  }

  /** How many blocks lie below height `h`. */
  function Under(chain: seq<Block>, h: nat): (n: nat)
    ensures n <= |chain|
  {
    if chain == [] then 0
    else if chain[|chain| - 1].header.height < h then |chain|
    else Under(chain[..|chain| - 1], h)
  }

  lemma {:induction false} UnderIs(chain: seq<Block>, h: nat, n: nat)
    requires Linked(chain) && n <= |chain|
    requires (n > 0 ==> chain[n - 1].header.height < h) && (n < |chain| ==> chain[n].header.height >= h)
    ensures Under(chain, h) == n
    decreases |chain|
  {
    if n < |chain| {
      if n < |chain| - 1 { assert Ordered(chain[n], chain[|chain| - 1]); }
      if |chain| > 1 {
        LinkedPrefix(chain, |chain| - 1);
        UnderIs(chain[..|chain| - 1], h, n);
      }
    }
  }

  lemma {:induction false} UnderBounds(chain: seq<Block>, h: nat)
    requires Linked(chain)
    ensures Under(chain, h) > 0 ==> chain[Under(chain, h) - 1].header.height < h
    ensures Under(chain, h) < |chain| ==> chain[Under(chain, h)].header.height >= h
    decreases |chain|
  {
    if |chain| > 1 && chain[|chain| - 1].header.height >= h {
      LinkedPrefix(chain, |chain| - 1);
      UnderBounds(chain[..|chain| - 1], h);
    }
  }

  lemma {:induction false} UnderRises(chain: seq<Block>, h: nat, h': nat)
    requires h <= h'
    ensures Under(chain, h) <= Under(chain, h')
    decreases |chain|
  {
    if chain != [] { UnderRises(chain[..|chain| - 1], h, h'); }
  }

  /** The peer's answer to a request for the heights `[begin, end)`. */
  function Answer(peer: seq<Block>, begin: nat, end: nat): seq<Block>
    requires Linked(peer)
  {
    if begin < end && begin <= Last(peer).header.height && end - begin <= MAX_REQ_BLOCKS
    then
      UnderRises(peer, begin, end);
      peer[Under(peer, begin)..Under(peer, end)]
    else []
  }

  datatype Window = Window(begin: nat, end: nat)

  /** The windows run on from `from` to `to` without gap or overlap, each within the request size. */
  predicate Tiles(windows: seq<Window>, from: nat, to: nat) {
    if windows == [] then from == to
    else
      var w := windows[|windows| - 1];
      && w.begin < w.end == to && w.end - w.begin <= MAX_REQ_BLOCKS
      && Tiles(windows[..|windows| - 1], from, w.begin)
  }

  lemma AnswerIs(peer: seq<Block>, begin: nat, end: nat)
    requires Linked(peer) && begin < end <= begin + MAX_REQ_BLOCKS
    ensures Under(peer, begin) <= Under(peer, end)
    ensures Answer(peer, begin, end) == peer[Under(peer, begin)..Under(peer, end)]
  {
    UnderRises(peer, begin, end);
    if begin > Last(peer).header.height {
      UnderIs(peer, begin, |peer|);
      UnderIs(peer, end, |peer|);
    }
  }

  lemma TilesNext(windows: seq<Window>, from: nat, w: Window)
    requires Tiles(windows, from, w.begin) && w.begin < w.end <= w.begin + MAX_REQ_BLOCKS
    ensures Tiles(windows + [w], from, w.end)
  {
    assert (windows + [w])[..|windows|] == windows;
  }

  /** Requests the next window and receives the peer's answer. */
  method RequestWindow(peer: seq<Block>, begin: nat, count: nat, requestEnd: nat) returns (end: nat, blocks: seq<Block>)
    requires Linked(peer) && begin < requestEnd && 1 <= count <= MAX_REQ_BLOCKS
    ensures begin < end <= requestEnd && end - begin <= MAX_REQ_BLOCKS && (end < requestEnd ==> end == begin + count)
    ensures blocks == Answer(peer, begin, end)
    ensures Under(peer, begin) <= Under(peer, end) && blocks == peer[Under(peer, begin)..Under(peer, end)]
  {
    end := begin + count;
    if end > requestEnd { end := requestEnd; }
    AnswerIs(peer, begin, end);
    blocks := Answer(peer, begin, end);
  }

  lemma FirstAnswer(peer: seq<Block>, a: nat, n: nat)
    requires Linked(peer) && a < n <= |peer|
    ensures Under(peer, peer[n - 1].header.height + 1) == n
  {
    if n < |peer| { assert Ordered(peer[n - 1], peer[n]); }
    UnderIs(peer, peer[n - 1].header.height + 1, n);
  }

  function Later(h: nat, h': nat): nat { if h < h' then h' else h }

  /** All that the peer answers to the windows, in order. */
  function Answers(peer: seq<Block>, windows: seq<Window>): seq<Block>
    requires Linked(peer)
  {
    if windows == [] then []
    else
      var n := |windows| - 1;
      Answers(peer, windows[..n]) + Answer(peer, windows[n].begin, windows[n].end)
  }

  lemma AnswersNext(peer: seq<Block>, first: seq<Block>, windows: seq<Window>, w: Window, received: seq<Block>)
    requires Linked(peer) && received == first + Answers(peer, windows)
    ensures received + Answer(peer, w.begin, w.end) == first + Answers(peer, windows + [w])
  {
    assert (windows + [w])[..|windows|] == windows;
    var known, next := Answers(peer, windows), Answer(peer, w.begin, w.end);
    assert (first + known) + next == first + (known + next);
  }

  /** The first height that the first answer does not cover. */
  function AfterLast(blocks: seq<Block>): nat
    requires blocks != []
  {
    blocks[|blocks| - 1].header.height + 1
  }

  lemma ReceivedNext(peer: seq<Block>, a: nat, n: nat, n': nat, received: seq<Block>, response: seq<Block>)
    requires a <= n <= n' <= |peer| && received == peer[a..n] && response == peer[n..n']
    ensures received + response == peer[a..n']
  {
  }

  /** Requests window after window from the end of the first answer until the request end is reached. What is received
      is the first answer and the peer's answers to these windows. Against an honest peer these are all of its blocks
      from the ancestor up to the end of the last request. */
  method Download(peer: seq<Block>, a: nat, first: seq<Block>, requestEnd: nat, counts: nat -> nat)
    returns (received: seq<Block>, windows: seq<Window>)
    requires Linked(peer) && a < |peer| && 0 < |first| <= |peer| - a && first == peer[a..a + |first|]
    requires forall k :: 1 <= counts(k) <= MAX_REQ_BLOCKS
    ensures Tiles(windows, AfterLast(first), Later(AfterLast(first), requestEnd))
    ensures received == first + Answers(peer, windows)
    ensures a < Under(peer, Later(AfterLast(first), requestEnd))
    ensures received == peer[a..Under(peer, Later(AfterLast(first), requestEnd))]
  {
    received := first;
    windows := [];
    var start := AfterLast(first);
    var reached := start;
    ghost var n := a + |first|;
    FirstAnswer(peer, a, n);
    while reached < requestEnd
      invariant start <= reached && (reached <= requestEnd || reached == start)
      invariant n == Under(peer, reached) && a < n <= |peer| && received == peer[a..n]
      invariant received == first + Answers(peer, windows)
      invariant Tiles(windows, start, reached)
      decreases requestEnd - reached
    {
      var end, response := RequestWindow(peer, reached, counts(|windows|), requestEnd);
      TilesNext(windows, start, Window(reached, end));
      AnswersNext(peer, first, windows, Window(reached, end), received);
      ReceivedNext(peer, a, n, Under(peer, end), received, response);
      windows := windows + [Window(reached, end)];
      received := received + response;
      n := Under(peer, end);
      reached := end;
    }
  }

  // ----- Choosing what is offered

  /** A slice whose blocks hang on each other from `pre` on. */
  predicate HangsOn(pre: Header, blocks: seq<Block>) {
    Chained(blocks) && (blocks != [] ==> blocks[0].header.preHash == pre.hash)
  }

  predicate AllBelow(blocks: seq<Block>, h: nat) {
    forall i :: 0 <= i < |blocks| ==> blocks[i].header.height < h
  }

  /** The part of a slice that is offered: all blocks up to the first one that breaks the link or reaches the
      request end. */
  method LinkedPart(first: Header, blocks: seq<Block>, requestEnd: nat) returns (i: nat, broken: bool)
    ensures i <= |blocks| && HangsOn(first, blocks[..i]) && AllBelow(blocks[..i], requestEnd)
    ensures broken ==> !HangsOn(first, blocks)
    ensures !broken && i < |blocks| ==> blocks[i].header.height >= requestEnd
  {
    var pre := first;
    i := 0;
    while i < |blocks|
      invariant 0 <= i <= |blocks|
      invariant pre == if i == 0 then first else blocks[i - 1].header
      invariant HangsOn(first, blocks[..i]) && AllBelow(blocks[..i], requestEnd)
    {
      if pre.hash != blocks[i].header.preHash { return i, true; }
      if blocks[i].header.height >= requestEnd { return i, false; }
      pre := blocks[i].header;
      i := i + 1;
    }
    return i, false;
  }

  /** What may be offered of a received slice. */
  ghost predicate Offerable(ancestor: Header, received: seq<Block>, requestEnd: nat, blocks: seq<Block>) {
    && |received| > 1 && received[0].header.hash == ancestor.hash
    && blocks != [] && blocks <= received[1..] && HangsOn(received[0].header, blocks) && AllBelow(blocks, requestEnd)
    && (|blocks| < |received| - 1 ==> received[1..][|blocks|].header.height >= requestEnd)
  }

  /** Checks a received slice: it must start with the ancestor and be chained; blocks from the request end on
      are dropped. */
  method OfferedBlocks(ancestor: Header, received: seq<Block>, requestEnd: nat) returns (offered: Option<seq<Block>>)
    ensures offered.Some? ==> Offerable(ancestor, received, requestEnd, offered.value)
    ensures offered.None? ==>
              || |received| <= 1 || received[0].header.hash != ancestor.hash
              || !HangsOn(received[0].header, received[1..]) || received[1].header.height >= requestEnd
  {
    if |received| <= 1 { return None; }
    if received[0].header.hash != ancestor.hash { return None; }
    var blocks := received[1..];
    var i, broken := LinkedPart(received[0].header, blocks, requestEnd);
    if broken || i == 0 { return None; }
    return Some(blocks[..i]);
  }

  lemma PeerHangs(peer: seq<Block>, q: nat, n: nat)
    requires Linked(peer) && q < n <= |peer|
    ensures HangsOn(peer[q].header, peer[q + 1..n])
  {
    var blocks := peer[q + 1..n];
    forall i | 0 < i < |blocks| ensures blocks[i].header.preHash == blocks[i - 1].header.hash {
      assert peer[q + 1 + i].header.preHash == peer[q + i].header.hash;
    }
    if blocks != [] { assert peer[q + 1].header.preHash == peer[q].header.hash; }
  }

  lemma OfferLength(peer: seq<Block>, q: nat, n: nat, requestEnd: nat, k: nat)
    requires Linked(peer) && q + 1 + k <= n <= |peer| && Under(peer, requestEnd) <= n
    requires peer[q + k].header.height < requestEnd
    requires q + 1 + k < n ==> peer[q + 1 + k].header.height >= requestEnd
    ensures Under(peer, requestEnd) == q + 1 + k
  {
    UnderBounds(peer, requestEnd);
    if q + 1 + k < n { UnderIs(peer, requestEnd, q + 1 + k); } else { UnderAtLeast(peer, requestEnd, q + k); }
  }

  lemma {:induction false} UnderAtLeast(chain: seq<Block>, h: nat, i: nat)
    requires i < |chain| && chain[i].header.height < h
    ensures i < Under(chain, h)
    decreases |chain|
  {
    if chain[|chain| - 1].header.height >= h { UnderAtLeast(chain[..|chain| - 1], h, i); }
  }

  lemma OfferIsSlice(peer: seq<Block>, q: nat, n: nat, blocks: seq<Block>)
    requires q < n <= |peer| && blocks <= peer[q..n][1..]
    ensures q + 1 + |blocks| <= n && blocks == peer[q + 1..q + 1 + |blocks|]
    ensures q + 1 + |blocks| < n ==> peer[q..n][1..][|blocks|] == peer[q + 1 + |blocks|]
  {
    assert peer[q..n][1..] == peer[q + 1..n];
  }

  /** What is offered of an honest peer's slice: its blocks strictly between the ancestor and the request end. */
  lemma HonestOffer(peer: seq<Block>, q: nat, n: nat, requestEnd: nat, blocks: seq<Block>)
    requires Linked(peer) && q < n <= |peer| && n >= Under(peer, requestEnd)
    requires Offerable(peer[q].header, peer[q..n], requestEnd, blocks)
    ensures Under(peer, requestEnd) == q + 1 + |blocks| && blocks == peer[q + 1..q + 1 + |blocks|]
  {
    OfferIsSlice(peer, q, n, blocks);
    assert blocks[|blocks| - 1].header.height < requestEnd;
    OfferLength(peer, q, n, requestEnd, |blocks|);
  }

  /** Hashes determine blocks on both chains. */
  ghost predicate SameWorld(chain: seq<Block>, peer: seq<Block>) {
    forall i, j {:trigger SameHash(chain[i], peer[j])} ::
      0 <= i < |chain| && 0 <= j < |peer| && SameHash(chain[i], peer[j]) ==> chain[i] == peer[j]
  }

  /** The blocks of a peer that lie strictly between its block `q` and the height `end`. */
  function Between(peer: seq<Block>, q: nat, end: nat): seq<Block>
    requires q < |peer|
  {
    if q < Under(peer, end) then peer[q + 1..Under(peer, end)] else []
  }

  /** The first answer to a request for `count` blocks from block `q` on. */
  function FirstBlocks(peer: seq<Block>, q: nat, count: nat): (first: seq<Block>)
    requires q < |peer| && count > 0
    ensures first != []
  {
    peer[q..if q + count < |peer| then q + count else |peer|]
  }

  /** The requests of a download: the windows run without gap or overlap from the end of the first answer to the
      request end, and the answers to them complete the peer's chain from block `q` on. */
  ghost predicate Requested(peer: seq<Block>, q: nat, count: nat, requestEnd: nat, windows: seq<Window>)
    requires Linked(peer) && q < |peer| && count > 0
  {
    var first := FirstBlocks(peer, q, count);
    var end := Later(AfterLast(first), requestEnd);
    && Tiles(windows, AfterLast(first), end)
    && q < Under(peer, end) && first + Answers(peer, windows) == peer[q..Under(peer, end)]
  }

  /** Downloads and checks an honest peer's blocks after the ancestor at its index `q`. */
  method FetchSlice(peer: seq<Block>, q: nat, requestEnd: nat, counts: nat -> nat)
    returns (offered: seq<Block>, windows: seq<Window>)
    requires Linked(peer) && q < |peer| && peer[q].header.height < requestEnd
    requires forall k :: 1 <= counts(k) <= MAX_REQ_BLOCKS
    ensures offered == Between(peer, q, requestEnd) && Requested(peer, q, counts(0), requestEnd, windows)
  {
    var first := FirstBlocks(peer, q, counts(0));
    var received;
    received, windows := Download(peer, q, first, requestEnd, counts);
    ghost var n := Under(peer, Later(AfterLast(first), requestEnd));
    UnderRises(peer, requestEnd, Later(AfterLast(first), requestEnd));
    var result := OfferedBlocks(peer[q].header, received, requestEnd);
    if result.Some? {
      HonestOffer(peer, q, n, requestEnd, result.value);
      return result.value, windows;
    }
    PeerHangs(peer, q, n);
    assert received[1..] == peer[q + 1..n];
    OfferLength(peer, q, n, requestEnd, 0);
    return [], windows;
  }

  /** One whole sync against an honest peer whose chain stays fixed. The blocks offered for adding are exactly
      the peer's blocks strictly between the highest common block and the request end, and nothing is requested
      or offered when that common block lies below the local checkpoint. */
  method SyncFork(
      length: Length, ix: Indexes, peerIx: Indexes, checkpoint: nat, peer: seq<Block>, counts: nat -> nat,
      ghost chain: seq<Block>)
    returns (offered: seq<Block>, windows: seq<Window>, ghost a: nat, ghost q: nat)
    requires Describes(ix, chain) && Describes(peerIx, peer) && SameWorld(chain, peer)
    requires chain[0] == peer[0] && chain[0].header.preHash !in ix.headers
    requires forall k :: 1 <= counts(k) <= MAX_REQ_BLOCKS
    ensures IsAncestor(chain, peer, a) && q < |peer| && peer[q] == chain[a]
    ensures chain[a].header.height < checkpoint ==> offered == [] && windows == []
    ensures chain[a].header.height >= checkpoint ==>
              var end := RequestEnd(length, Last(peer).header.height, chain[a].header.height);
              offered == Between(peer, q, end) && Requested(peer, q, counts(0), end, windows)
  {
    InChain(peer, 0);
    var found;
    found, a := FindAncestor(ix, peerIx, checkpoint, chain, peer);
    q :| q < |peer| && peer[q].header.hash == chain[a].header.hash;
    assert SameHash(chain[a], peer[q]);
    if !found.Accepted? { return [], [], a, q; }
    var at := IndexOf(peer, found.hash, q);
    if q < |peer| - 1 { assert Ordered(peer[q], peer[|peer| - 1]); }
    RequestEndIs(length, Last(peer).header.height, peer[at].header.height);
    var requestEnd := RequestEnd(length, Last(peer).header.height, peer[at].header.height);
    offered, windows := FetchSlice(peer, at, requestEnd, counts);
  }

  /** The position of the block with the given hash. */
  method IndexOf(chain: seq<Block>, hash: Hash, ghost q: nat) returns (i: nat)
    requires Linked(chain) && q < |chain| && chain[q].header.hash == hash
    ensures i == q
  {
    i := 0;
    while chain[i].header.hash != hash
      invariant i <= q
      decreases q - i
    {
      i := i + 1;
    }
    HashIndex(chain, i, q);
  }

  /** Adding blocks that hang on a block not below the checkpoint loses no block up to the checkpoint, whichever
      blocks were held already and whichever of the others are refused. */
  lemma ForkKeepsCheckpoint(
      was: seq<Block>, now: seq<Block>, offered: seq<Block>, p: nat, from: nat, to: nat, a: nat, checkpoint: nat, i: nat)
    requires Linked(was) && a < |was| && checkpoint <= was[a].header.height
    requires offered != [] && HangsOn(was[a].header, offered) && AllGenuine(offered, was)
    requires SliceAdded(was, now, offered, p, from, to)
    requires i < |was| && was[i].header.height <= checkpoint
    ensures i < |now| && now[i] == was[i]
  {
    AncestorStays(was, now, offered, p, from, to, a);
    NothingBelowLost(was, now, a, checkpoint, i);
  }

  lemma PeerGenuine(chain: seq<Block>, peer: seq<Block>, q: nat, n: nat)
    requires Linked(chain) && Linked(peer) && SameWorld(chain, peer) && q < n <= |peer|
    ensures AllGenuine(peer[q + 1..n], chain)
  {
    var blocks := peer[q + 1..n];
    forall k | 0 <= k < |blocks| ensures Genuine(blocks[k].header, chain) {
      var m := q + 1 + k;
      assert peer[m].header.preHash == peer[m - 1].header.hash;
      assert Ordered(peer[m - 1], peer[m]);
      forall i | 0 <= i < |chain|
        ensures chain[i].header.hash == peer[m].header.hash ==> chain[i].header == peer[m].header
        ensures chain[i].header.hash == peer[m].header.preHash ==> chain[i].header.height < peer[m].header.height
      {
        assert SameHash(chain[i], peer[m]) ==> chain[i] == peer[m];
        assert SameHash(chain[i], peer[m - 1]) ==> chain[i] == peer[m - 1];
      }
    }
    forall k, l | 0 <= k < |blocks| && 0 <= l < |blocks| && SameHash(blocks[k], blocks[l])
      ensures blocks[k].header == blocks[l].header
    {
      HashIndex(peer, q + 1 + k, q + 1 + l);
    }
    forall k | 0 < k < |blocks| ensures blocks[k].header.height > blocks[k - 1].header.height {
      assert Ordered(peer[q + k], peer[q + 1 + k]);
    }
  }

  /** The chain is cut above block `p` and goes on with blocks of the peer. */
  predicate Spliced(was: seq<Block>, now: seq<Block>, peer: seq<Block>, p: nat, from: nat, to: nat) {
    p < |was| && from <= to <= |peer| && now == was[..p + 1] + peer[from..to]
  }

  /** What a fork sync may do to the chain: nothing at or below the checkpoint is lost, and what is gained are
      consecutive blocks of the peer after the highest common block. */
  ghost predicate Forked(was: seq<Block>, now: seq<Block>, peer: seq<Block>, a: nat, q: nat, checkpoint: nat) {
    && (forall i {:trigger was[i]} ::
          0 <= i < |was| && was[i].header.height <= checkpoint ==> i < |now| && now[i] == was[i])
    && (now != was ==> exists p: nat, from: nat, to: nat :: a <= p && q < from && Spliced(was, now, peer, p, from, to))
  }

  lemma SliceOfSlice(s: seq<Block>, lo: nat, hi: nat, from: nat, to: nat)
    requires lo <= hi <= |s| && from <= to <= hi - lo
    ensures s[lo..hi][from..to] == s[lo + from..lo + to]
  {
    var x, y := s[lo..hi][from..to], s[lo + from..lo + to];
    forall i | 0 <= i < to - from ensures x[i] == y[i] {
      assert x[i] == s[lo..hi][from + i] == s[lo + from + i];
    }
  }

  lemma SplicedBy(
      was: seq<Block>, now: seq<Block>, peer: seq<Block>, offered: seq<Block>, p: nat, from: nat, to: nat, q: nat)
    requires q + 1 + |offered| <= |peer| && offered == peer[q + 1..q + 1 + |offered|]
    requires from <= to <= |offered| && p < |was| && now == was[..p + 1] + offered[from..to]
    ensures Spliced(was, now, peer, p, q + 1 + from, q + 1 + to)
  {
    SliceOfSlice(peer, q + 1, q + 1 + |offered|, from, to);
  }

  lemma ForkedBy(
      was: seq<Block>, now: seq<Block>, peer: seq<Block>, offered: seq<Block>, p: nat, from: nat, to: nat,
      a: nat, q: nat, checkpoint: nat)
    requires Linked(was) && Linked(peer) && SameWorld(was, peer) && a < |was| && checkpoint <= was[a].header.height
    requires q + 1 + |offered| <= |peer| && offered == peer[q + 1..q + 1 + |offered|] && peer[q] == was[a] && offered != []
    requires SliceAdded(was, now, offered, p, from, to)
    ensures Forked(was, now, peer, a, q, checkpoint)
  {
    PeerGenuine(was, peer, q, q + 1 + |offered|);
    PeerHangs(peer, q, q + 1 + |offered|);
    forall i | 0 <= i < |was| && was[i].header.height <= checkpoint ensures i < |now| && now[i] == was[i] {
      ForkKeepsCheckpoint(was, now, offered, p, from, to, a, checkpoint, i);
    }
    if now != was {
      MissingAboveAncestor(offered, was, a, from, p);
      SplicedBy(was, now, peer, offered, p, from, to, q);
    }
  }

  lemma OfferIsTail(peer: seq<Block>, q: nat, end: nat, offered: seq<Block>)
    requires q < |peer| && offered == Between(peer, q, end)
    ensures q + 1 + |offered| <= |peer| && offered == peer[q + 1..q + 1 + |offered|]
  {
  }

  /** Nothing after the highest common block is held. */
  lemma NextIsNew(chain: seq<Block>, peer: seq<Block>, a: nat, q: nat)
    requires Linked(chain) && Linked(peer) && SameWorld(chain, peer) && IsAncestor(chain, peer, a)
    requires q + 1 < |peer| && peer[q] == chain[a]
    ensures peer[q + 1].header.hash !in Hashes(chain)
  {
    forall i | 0 <= i < |chain| ensures chain[i].header.hash != peer[q + 1].header.hash {
      InChain(peer, q + 1);
      assert Ordered(peer[q], peer[q + 1]);
      assert i > a ==> !Common(peer, chain[i].header.hash);
      assert i < a ==> Ordered(chain[i], chain[a]);
      assert SameHash(chain[i], peer[q + 1]) ==> chain[i] == peer[q + 1];
    }
  }

  /** All offered blocks are willing, and nothing else stands in their way. */
  ghost predicate Welcome(
      was: seq<Block>, a: nat, offered: seq<Block>, resets: bool, judge: Hash -> Judgement, proceed: AddResult -> bool)
  {
    && a < |was| && (a == |was| - 1 || resets) && proceed(Succ)
    && forall k :: 0 <= k < |offered| ==> WillingAt(was[a].header, offered, judge, k)
  }

  lemma ForkTaken(
      was: seq<Block>, now: seq<Block>, peer: seq<Block>, offered: seq<Block>, a: nat, q: nat, resets: bool,
      judge: Hash -> Judgement, proceed: AddResult -> bool, p: nat, from: nat, to: nat)
    requires Linked(was) && Linked(peer) && SameWorld(was, peer) && IsAncestor(was, peer, a) && a < |was|
    requires q + 1 + |offered| <= |peer| && offered == peer[q + 1..q + 1 + |offered|] && peer[q] == was[a] && offered != []
    requires Batched(was, now, true, resets, offered, judge, proceed, p, from, to)
    requires Welcome(was, a, offered, resets, judge, proceed)
    ensures now == was[..a + 1] + offered
  {
    PeerHangs(peer, q, q + 1 + |offered|);
    NextIsNew(was, peer, a, q);
    assert offered[0] == peer[q + 1] && IsParent(was, a, offered[0].header);
    assert from == 0 && offered[0..] == offered;
    if IsParent(was, p, offered[0].header) { HashIndex(was, p, a); }
    assert to == |offered|;
  }

  /** Adds the offered blocks of a peer, which follow the highest common block. */
  method AddFork(
      store: BlockStore, checkpoint: nat, peer: seq<Block>, offered: seq<Block>, resets: bool,
      judge: Hash -> Judgement, proceed: AddResult -> bool, ghost a: nat, ghost q: nat)
    requires store.Valid() && Linked(peer) && SameWorld(store.chain, peer) && store.chain[0].header.height == 0
    requires a < |store.chain| && checkpoint <= store.chain[a].header.height && offered != []
    requires q + 1 + |offered| <= |peer| && offered == peer[q + 1..q + 1 + |offered|] && peer[q] == store.chain[a]
    requires IsAncestor(store.chain, peer, a)
    modifies store
    ensures store.Valid() && Forked(old(store.chain), store.chain, peer, a, q, checkpoint)
    ensures Welcome(old(store.chain), a, offered, resets, judge, proceed) ==>
              store.chain == old(store.chain)[..a + 1] + offered
  {
    ghost var was := store.chain;
    PeerGenuine(was, peer, q, q + 1 + |offered|);
    ghost var p, from, to := BatchAddBlocks(store, true, offered, resets, judge, proceed);
    ForkedBy(was, store.chain, peer, offered, p, from, to, a, q, checkpoint);
    if Welcome(was, a, offered, resets, judge, proceed) {
      ForkTaken(was, store.chain, peer, offered, a, q, resets, judge, proceed, p, from, to);
    }
  }

  /** Processes a fork: syncs with the peer and, if its headers verify and its fork is preferred, adds what is offered.
      The checkpoint is the one recorded when the sync starts. */
  method ProcessFork(
      store: BlockStore, length: Length, peerIx: Indexes, checkpoint: nat, peer: seq<Block>, counts: nat -> nat,
      preferred: bool, resets: bool, judge: Hash -> Judgement, proceed: AddResult -> bool)
    returns (offered: seq<Block>, ghost a: nat, ghost q: nat)
    requires store.Valid() && Describes(peerIx, peer) && SameWorld(store.chain, peer)
    requires store.chain[0] == peer[0] && store.chain[0].header.height == 0
    requires store.chain[0].header.preHash !in store.ix.headers
    requires forall k :: 1 <= counts(k) <= MAX_REQ_BLOCKS
    modifies store
    ensures store.Valid() && IsAncestor(old(store.chain), peer, a) && q < |peer| && peer[q] == old(store.chain)[a]
    ensures Forked(old(store.chain), store.chain, peer, a, q, checkpoint)
    ensures old(store.chain)[a].header.height < checkpoint ==> store.chain == old(store.chain)
    ensures old(store.chain)[a].header.height >= checkpoint ==>
              offered == Between(peer, q, RequestEnd(length, Last(peer).header.height, old(store.chain)[a].header.height))
    ensures !preferred ==> store.chain == old(store.chain)
    ensures preferred && offered != [] && Welcome(old(store.chain), a, offered, resets, judge, proceed) ==>
              store.chain == old(store.chain)[..a + 1] + offered
  {
    ghost var was := store.chain;
    var windows;
    offered, windows, a, q := SyncFork(length, store.ix, peerIx, checkpoint, peer, counts, was);
    if offered == [] || !preferred { return; }
    OfferIsTail(peer, q, RequestEnd(length, Last(peer).header.height, was[a].header.height), offered);
    AddFork(store, checkpoint, peer, offered, resets, judge, proceed, a, q);
  }
}
