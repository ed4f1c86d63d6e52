/** What a host hands to every contract's update door. */
module Doors {
  import opened Bytes

  datatype UpdateData =
    | State(state: bytes)
    | Delta(delta: bytes)
    | StateAndDelta(state: bytes, delta: bytes)
    | Related

  /** An item with both offers its state before its delta, and only then does a delta made for that state follow it. */
  function CandidatesOf(item: UpdateData): seq<bytes> {
    match item
    case State(s) => [s]
    case Delta(d) => [d]
    case StateAndDelta(s, d) => [s, d]
    case Related => []
  }

  function Candidates(data: seq<UpdateData>): seq<bytes>
    decreases |data|
  {
    if data == [] then [] else CandidatesOf(data[0]) + Candidates(data[1..])
  }

  /** What a batch offers, item by item: one state, one delta, a state and then its delta, or nothing; and batches end to
      end offer what each does. */
  lemma {:induction false} OffersInOrder(data: seq<UpdateData>, more: seq<UpdateData>, s: bytes, d: bytes)
    ensures Candidates(data + more) == Candidates(data) + Candidates(more)
    ensures Candidates([]) == []
    ensures Candidates([State(s)]) == [s] && Candidates([Delta(d)]) == [d]
    ensures Candidates([StateAndDelta(s, d)]) == [s, d] && Candidates([Related]) == []
    decreases |data|
  {
    forall x: UpdateData ensures Candidates([x]) == CandidatesOf(x) {
      assert [x][1..] == [];
      assert CandidatesOf(x) + [] == CandidatesOf(x);
    }
    if data == [] {
      assert data + more == more;
    } else {
      assert (data + more)[1..] == data[1..] + more;
      OffersInOrder(data[1..], more, s, d);
      var c, x, y := CandidatesOf(data[0]), Candidates(data[1..]), Candidates(more);
      assert c + (x + y) == (c + x) + y;
    }
  }

  /** The batch as the doors' two nested loops walk it. */
  method Flatten(data: seq<UpdateData>) returns (cands: seq<bytes>)
    ensures cands == Candidates(data)
  {
    cands := [];
    var i := 0;
    while i < |data|
      invariant 0 <= i <= |data|
      invariant cands + Candidates(data[i..]) == Candidates(data)
    {
      assert data[i..][1..] == data[i + 1..];
      ghost var rest := Candidates(data[i + 1..]);
      assert cands + (CandidatesOf(data[i]) + rest) == cands + CandidatesOf(data[i]) + rest;
      cands := cands + CandidatesOf(data[i]);
      i := i + 1;
    }
    assert cands + [] == cands;
  }
}
