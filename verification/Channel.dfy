/** A Go channel together with what has ever gone through it. */
module Channel {

  /** `queue` is the channel's buffer; `sent` and `received` record every value ever
      sent into and received from it, oldest first. */
  datatype Chan<T> = Chan(cap: nat, queue: seq<T>, sent: seq<T>, received: seq<T>) {

    /** FIFO without loss: what was received, followed by what is buffered, is what was sent. */
    ghost predicate Valid() {
      sent == received + queue && |queue| <= cap
    }

    /** A non-blocking send succeeds on a buffered channel. */
    predicate HasRoom() {
      |queue| < cap
    }

    function Send(x: T): (c: Chan<T>)
      requires HasRoom()
      ensures Valid() ==> c.Valid()
    {
      assert Valid() ==> sent + [x] == received + (queue + [x]);
      this.(queue := queue + [x], sent := sent + [x])
    }

    function Receive(): (c: Chan<T>)
      requires queue != []
      ensures Valid() ==> c.Valid()
    {
      assert Valid() ==> sent == received + [queue[0]] + queue[1..];
      this.(queue := queue[1..], received := received + [queue[0]])
    }

    /** On an unbuffered channel a send and a receive happen as one step. */
    function HandOver(x: T): (c: Chan<T>)
      requires cap == 0
      ensures Valid() ==> c.Valid()
    {
      assert Valid() ==> sent + [x] == received + [x] + queue;
      this.(sent := sent + [x], received := received + [x])
    }
  }

  function Make<T>(cap: nat): (c: Chan<T>)
    ensures c.Valid() && c.cap == cap && c.sent == []
  {
    Chan(cap, [], [], [])
  }
}
