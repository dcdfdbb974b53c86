/**
 * backend/main.py: the module-level list `messages`, which POST
 * /api/message appends to and GET /api/message pops from the front of.
 */
module MessageQueue {
  import opened Outcomes

  /** The Message body: a sender name and a text. */
  datatype Message = Message(name: string, message: string)

  /** `{"status": "success", "message": message}`. */
  datatype AddReply = AddReply(status: string, message: Message)

  class Queue {
    var messages: seq<Message>

    constructor ()
      ensures messages == []
    {
      messages := [];
    }

    /**
     * get_message: 204 "No messages left on the stack" when the queue is
     * empty, which it stays; otherwise the oldest message, removed.
     */
    method GetMessage() returns (r: Result<Message>)
      modifies this
      ensures old(messages) == [] ==> r == Err(HttpError(204, "No messages left on the stack")) && messages == []
      ensures old(messages) != [] ==> r == Ok(old(messages)[0]) && messages == old(messages)[1..]
      ensures r.Ok? ==> |messages| == |old(messages)| - 1
    {
      if messages == [] {
        return Err(HttpError(204, "No messages left on the stack"));
      }
      r := Ok(messages[0]);
      messages := messages[1..];
    }

    /** add_message: append at the tail and echo the message back with status "success". */
    method AddMessage(message: Message) returns (reply: AddReply)
      modifies this
      ensures messages == old(messages) + [message]
      ensures reply == AddReply("success", message)
    {
      messages := messages + [message];
      reply := AddReply("success", message);
    }
  }

  /**
   * Messages come out in the order they went in: adding `batch` to an empty
   * queue and then getting as many messages returns `batch`, and one more
   * get fails with 204.
   */
  method FirstInFirstOut(q: Queue, batch: seq<Message>) returns (out: seq<Message>, last: Result<Message>)
    requires q.messages == []
    modifies q
    ensures out == batch && q.messages == []
    ensures last == Err(HttpError(204, "No messages left on the stack"))
  {
    var i := 0;
    while i < |batch|
      invariant 0 <= i <= |batch| && q.messages == batch[..i]
    {
      var reply := q.AddMessage(batch[i]);
      assert batch[..i + 1] == batch[..i] + [batch[i]];
      i := i + 1;
    }
    out := [];
    while |out| < |batch|
      invariant |out| <= |batch| && out == batch[..|out|] && q.messages == batch[|out|..]
      decreases |batch| - |out|
    {
      var r := q.GetMessage();
      assert batch[|out|..][0] == batch[|out|];
      out := out + [r.value];
      assert batch[|out|..] == batch[|out| - 1..][1..];
    }
    last := q.GetMessage();
  }
}
