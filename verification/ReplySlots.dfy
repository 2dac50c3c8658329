/** The replies of the waiting requests: one slot per request, by its token.

    The functions say what each region locked by the mutex does to the slots and to the messages; the class is the
    structure that the requesting threads and the delivery thread share, updated in place.
    A message is the number of its delivery.
*/
module ReplySlots {
  import opened Wrappers
  import opened Tokens

  type Message = nat

  /** The slots, and how often each message has been destroyed. */
  datatype Slots = Slots(replies: map<string, Option<Message>>, destroyed: multiset<Message>)

  function Destroy(s: Slots, m: Option<Message>): Slots {
    match m
    case None => s
    case Some(v) => s.(destroyed := s.destroyed + multiset{v})
  }

  /** replies[token] = nullptr. */
  function Put(s: Slots, token: string, m: Option<Message>): Slots {
    s.(replies := s.replies[token := m])
  }

  /** The slot of a token; like the subscript of a std::map, it creates a missing slot. */
  function Touch(s: Slots, token: string): Slots {
    if token in s.replies then s else Put(s, token, None)
  }

  function Content(s: Slots, token: string): Option<Message> {
    if token in s.replies then s.replies[token] else None
  }

  /** The token that a reply is for. */
  function Addressed(prefix: string, subject: Option<string>): Option<string> {
    match subject
    case None => None
    case Some(text) => StripPrefix(prefix, text)
  }

  /** A reply is stored only in an empty slot of a waiting request; any other reply is destroyed. */
  function Deliver(s: Slots, prefix: string, subject: Option<string>, m: Message): Slots {
    match Addressed(prefix, subject)
    case None => Destroy(s, Some(m))
    case Some(token) =>
      if token !in s.replies || s.replies[token].Some? then Destroy(s, Some(m)) else Put(s, token, Some(m))
  }

  /** A check of the wait loop: an arrived reply is taken from its slot. */
  function Take(s: Slots, token: string): Slots {
    if Content(s, token).Some? then Put(s, token, None) else Touch(s, token)
  }

  /** The end of a request: a reply that arrived after it stopped waiting is destroyed with its slot. */
  function Erase(s: Slots, token: string): Slots {
    Destroy(s, Content(s, token)).(replies := s.replies - {token})
  }

  /** The messages in the slots of some tokens. */
  function Stored(replies: map<string, Option<Message>>, tokens: set<string>): set<Message> {
    set t | t in tokens && t in replies && replies[t].Some? :: replies[t].value
  }

  /** No message is in two slots. */
  ghost predicate Unshared(replies: map<string, Option<Message>>) {
    forall t, u :: t in replies && u in replies && replies[t].Some? && replies[t] == replies[u] ==> t == u
  }

  lemma StoredOneMore(replies: map<string, Option<Message>>, done: set<string>, t: string)
    requires Unshared(replies) && t in replies && t !in done
    ensures replies[t].None? ==> Stored(replies, done + {t}) == Stored(replies, done)
    ensures replies[t].Some? ==>
              multiset(Stored(replies, done + {t})) == multiset(Stored(replies, done)) + multiset{replies[t].value}
  {
    if replies[t].Some? {
      var m := replies[t].value;
      assert m !in Stored(replies, done);
      assert Stored(replies, done + {t}) == Stored(replies, done) + {m};
    }
  }

  class ReplyMux {
    const prefix: string
    var replies: map<string, Option<Message>>
    //! the messages that natsMsg_Destroy() was called for
    ghost var destroyed: multiset<Message>

    constructor (prefix: string)
      ensures this.prefix == prefix && replies == map[] && destroyed == multiset{}
    {
      this.prefix := prefix;
      replies := map[];
      destroyed := multiset{};
    }

    ghost function State(): Slots
      reads this
    {
      Slots(replies, destroyed)
    }

    /** Destroys a message; only that it was called is of interest. */
    ghost method DestroyMessage(m: Message)
      modifies this`destroyed
      ensures State() == Destroy(old(State()), Some(m))
    {
      destroyed := destroyed + multiset{m};
    }

    /** std::map's subscript operator. */
    method Subscript(token: string) returns (m: Option<Message>)
      modifies this`replies
      ensures State() == Touch(old(State()), token) && m == Content(old(State()), token)
      ensures token in replies && replies[token] == m
    {
      if token !in replies {
        replies := replies[token := None];
      }
      m := replies[token];
    }

    method StartRequest(token: string)
      modifies this`replies
      ensures State() == Put(old(State()), token, None)
    {
      replies := replies[token := None];
    }

    method HandleReply(subject: Option<string>, m: Message)
      modifies this
      ensures State() == Deliver(old(State()), prefix, subject, m)
    {
      if subject.None? || !(prefix <= subject.value) {
        DestroyMessage(m);
        return;
      }
      var token := subject.value[|prefix|..];
      if token !in replies || replies[token].Some? {
        DestroyMessage(m);
        return;
      }
      replies := replies[token := Some(m)];
    }

    /** One turn of the wait loop up to the wait. */
    method CheckReply(token: string) returns (reply: Option<Message>)
      modifies this`replies
      ensures State() == Take(old(State()), token) && reply == Content(old(State()), token)
    {
      reply := Subscript(token);
      if reply.Some? {
        replies := replies[token := None];
      }
    }

    method EndRequest(token: string)
      modifies this
      ensures State() == Erase(old(State()), token)
    {
      if token in replies {
        if replies[token].Some? {
          DestroyMessage(replies[token].value);
        }
        replies := replies - {token};
      } else {
        assert replies - {token} == replies;
      }
    }

    /** The destructor's loop over the slots. */
    method DestroyReplies()
      requires Unshared(replies)
      modifies this`destroyed
      ensures destroyed == old(destroyed) + multiset(Stored(replies, replies.Keys))
    {
      var left := replies.Keys;
      while left != {}
        invariant left <= replies.Keys
        invariant destroyed == old(destroyed) + multiset(Stored(replies, replies.Keys - left))
        decreases left
      {
        var t :| t in left;
        ghost var done := replies.Keys - left;
        StoredOneMore(replies, done, t);
        if replies[t].Some? {
          DestroyMessage(replies[t].value);
        }
        left := left - {t};
        assert replies.Keys - left == done + {t};
      }
      assert replies.Keys - {} == replies.Keys;
    }
  }
}
