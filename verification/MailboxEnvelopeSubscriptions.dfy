/** Which sockets are told about a mailbox: two nested indexes of the same subscriptions, one by client and
    one by mailbox and reader, proved to stand for one plain set of triples after every operation. */
module MailboxEnvelopeSubscriptions {

  const MAX_SUBSCRIPTIONS_PER_CLIENT := 256

  /** A socket, known only by its identity. */
  datatype Client = Client(identity: nat)

  datatype Subscription = Subscription(mailbox: string, hash: string)

  /** One client listening to one mailbox with one reader's token hash. */
  datatype Triple = Triple(client: Client, mailbox: string, hash: string)

  type Readers = map<string, set<Client>>
  type ByMailbox = map<string, Readers>
  type ByClient = map<Client, set<Subscription>>

  function ReadersOf(index: ByMailbox, mailbox: string): Readers {
    if mailbox in index then index[mailbox] else map[]
  }

  function ClientsOf(readers: Readers, hash: string): set<Client> {
    if hash in readers then readers[hash] else {}
  }

  function SubscriptionsOf(index: ByClient, client: Client): set<Subscription> {
    if client in index then index[client] else {}
  }

  ghost predicate InMailboxIndex(index: ByMailbox, triple: Triple) {
    triple.client in ClientsOf(ReadersOf(index, triple.mailbox), triple.hash)
  }

  ghost predicate InClientIndex(index: ByClient, triple: Triple) {
    Subscription(triple.mailbox, triple.hash) in SubscriptionsOf(index, triple.client)
  }

  /** Nothing is kept for nobody. */
  ghost predicate NoEmptyReaders(index: ByMailbox) {
    && (forall mailbox :: mailbox in index ==> index[mailbox] != map[])
    && (forall mailbox, hash :: mailbox in index && hash in index[mailbox] ==> index[mailbox][hash] != {})
  }

  ghost predicate NoEmptyClients(index: ByClient) {
    forall client :: client in index ==> 0 < |index[client]| <= MAX_SUBSCRIPTIONS_PER_CLIENT
  }

  // ---- Each index after one change ----

  /** The client leaves the reader, and what becomes empty goes with it. */
  function Detached(index: ByMailbox, client: Client, mailbox: string, hash: string): ByMailbox {
    var readers := ReadersOf(index, mailbox);
    if hash !in readers then index else
      var clients := readers[hash] - {client};
      var rest := if |clients| == 0 then readers - {hash} else readers[hash := clients];
      if |rest| == 0 then index - {mailbox} else index[mailbox := rest]
  }

  /** After a detachment each reader has the clients it should. */
  lemma DetachedReaders(index: ByMailbox, client: Client, mailbox: string, hash: string, m: string, h: string)
    ensures ClientsOf(ReadersOf(Detached(index, client, mailbox, hash), m), h)
         == ClientsOf(ReadersOf(index, m), h) - if m == mailbox && h == hash then {client} else {}
  {
    var readers := ReadersOf(index, mailbox);
    if hash in readers {
      var clients := readers[hash] - {client};
      var rest := if |clients| == 0 then readers - {hash} else readers[hash := clients];
      assert h != hash && h in readers ==> h in rest;
    }
  }

  lemma DetachedTriples(index: ByMailbox, client: Client, mailbox: string, hash: string)
    ensures forall triple :: InMailboxIndex(Detached(index, client, mailbox, hash), triple)
                        <==> InMailboxIndex(index, triple) && triple != Triple(client, mailbox, hash)
  {
    forall triple ensures InMailboxIndex(Detached(index, client, mailbox, hash), triple)
                     <==> InMailboxIndex(index, triple) && triple != Triple(client, mailbox, hash)
    {
      DetachedReaders(index, client, mailbox, hash, triple.mailbox, triple.hash);
    }
  }

  lemma DetachedLeavesNothingEmpty(index: ByMailbox, client: Client, mailbox: string, hash: string)
    requires NoEmptyReaders(index)
    ensures NoEmptyReaders(Detached(index, client, mailbox, hash))
  {
  }

  /** The client joins the reader. */
  function Attached(index: ByMailbox, client: Client, mailbox: string, hash: string): ByMailbox {
    var readers := ReadersOf(index, mailbox);
    index[mailbox := readers[hash := ClientsOf(readers, hash) + {client}]]
  }

  lemma AttachedTriples(index: ByMailbox, client: Client, mailbox: string, hash: string)
    requires NoEmptyReaders(index)
    ensures NoEmptyReaders(Attached(index, client, mailbox, hash))
    ensures forall triple :: InMailboxIndex(Attached(index, client, mailbox, hash), triple)
                        <==> InMailboxIndex(index, triple) || triple == Triple(client, mailbox, hash)
  {
    var joined := ClientsOf(ReadersOf(index, mailbox), hash) + {client};
    assert client in joined;
    assert hash in ReadersOf(index, mailbox)[hash := joined];
  }

  /** The client takes one subscription more. */
  lemma SubscribedTriples(index: ByClient, client: Client, subscription: Subscription)
    requires NoEmptyClients(index) && |SubscriptionsOf(index, client)| < MAX_SUBSCRIPTIONS_PER_CLIENT
    ensures NoEmptyClients(index[client := SubscriptionsOf(index, client) + {subscription}])
    ensures forall triple :: InClientIndex(index[client := SubscriptionsOf(index, client) + {subscription}], triple)
                        <==> (|| InClientIndex(index, triple)
                              || triple == Triple(client, subscription.mailbox, subscription.hash))
  {
  }

  /** The client gives up one subscription, and is forgotten with its last. */
  function Unsubscribed(index: ByClient, client: Client, subscription: Subscription): ByClient {
    var rest := SubscriptionsOf(index, client) - {subscription};
    if |rest| == 0 then index - {client} else index[client := rest]
  }

  lemma UnsubscribedTriples(index: ByClient, client: Client, subscription: Subscription)
    requires NoEmptyClients(index)
    ensures NoEmptyClients(Unsubscribed(index, client, subscription))
    ensures forall triple :: InClientIndex(Unsubscribed(index, client, subscription), triple)
                        <==> (&& InClientIndex(index, triple)
                              && triple != Triple(client, subscription.mailbox, subscription.hash))
  {
    var held := SubscriptionsOf(index, client);
    assert |held - {subscription}| <= |held| by {
      if subscription in held {
        assert held == held - {subscription} + {subscription};
      } else {
        assert held == held - {subscription};
      }
    }
  }

  lemma ClientsAreListeners(index: ByMailbox, mailbox: string, clients: set<Client>)
    requires var readers := ReadersOf(index, mailbox);
             clients == set hash, client | hash in readers && client in readers[hash] :: client
    ensures forall client :: client in clients <==> exists hash :: InMailboxIndex(index, Triple(client, mailbox, hash))
  {
    forall client ensures client in clients <==> exists hash :: InMailboxIndex(index, Triple(client, mailbox, hash)) {
      if client in clients {
        var hash :| hash in ReadersOf(index, mailbox) && client in ReadersOf(index, mailbox)[hash];
        assert InMailboxIndex(index, Triple(client, mailbox, hash));
      }
      if hash :| InMailboxIndex(index, Triple(client, mailbox, hash)) {
        assert hash in ReadersOf(index, mailbox) && client in ReadersOf(index, mailbox)[hash];
      }
    }
  }

  // ---- The object ----

  class Subscriptions {
    var clientsByMailbox: ByMailbox
    var subscriptionsByClient: ByClient

    /** The plain set both indexes stand for. */
    ghost function Triples(): iset<Triple>
      reads this`subscriptionsByClient
    {
      iset triple: Triple | InClientIndex(subscriptionsByClient, triple)
    }

    /** Both indexes describe the same triples, and neither keeps an empty collection. */
    ghost predicate Valid()
      reads this
    {
      && (forall triple :: InMailboxIndex(clientsByMailbox, triple) <==> InClientIndex(subscriptionsByClient, triple))
      && NoEmptyReaders(clientsByMailbox)
      && NoEmptyClients(subscriptionsByClient)
    }

    constructor ()
      ensures Valid() && Triples() == iset{}
    {
      clientsByMailbox, subscriptionsByClient := map[], map[];
    }

    method Detach(client: Client, mailbox: string, hash: string)
      modifies this`clientsByMailbox
      ensures clientsByMailbox == Detached(old(clientsByMailbox), client, mailbox, hash)
    {
      var readers := ReadersOf(clientsByMailbox, mailbox);
      if hash !in readers {
        return;
      }
      var clients := readers[hash] - {client};
      readers := if |clients| == 0 then readers - {hash} else readers[hash := clients];
      if |readers| == 0 {
        clientsByMailbox := clientsByMailbox - {mailbox};
      } else {
        clientsByMailbox := clientsByMailbox[mailbox := readers];
      }
    }

    /** Adds the triple, unless the client holds as many subscriptions as it may. */
    method Add(client: Client, mailbox: string, hash: string)
      requires Valid()
      modifies this
      ensures Valid()
      ensures var room := |SubscriptionsOf(old(subscriptionsByClient), client)| < 256;
              Triples() == old(Triples()) + if room then iset{Triple(client, mailbox, hash)} else iset{}
    {
      var subscriptions := SubscriptionsOf(subscriptionsByClient, client);
      var subscription := Subscription(mailbox, hash);
      if subscription in subscriptions || |subscriptions| >= MAX_SUBSCRIPTIONS_PER_CLIENT {
        return;
      }
      SubscribedTriples(subscriptionsByClient, client, subscription);
      AttachedTriples(clientsByMailbox, client, mailbox, hash);
      subscriptionsByClient := subscriptionsByClient[client := subscriptions + {subscription}];
      clientsByMailbox := Attached(clientsByMailbox, client, mailbox, hash);
    }

    /** Removes exactly this triple. */
    method RemoveSubscription(client: Client, mailbox: string, hash: string)
      requires Valid()
      modifies this
      ensures Valid() && Triples() == old(Triples()) - iset{Triple(client, mailbox, hash)}
    {
      if client !in subscriptionsByClient {
        return;
      }
      UnsubscribedTriples(subscriptionsByClient, client, Subscription(mailbox, hash));
      DetachedTriples(clientsByMailbox, client, mailbox, hash);
      DetachedLeavesNothingEmpty(clientsByMailbox, client, mailbox, hash);
      subscriptionsByClient := Unsubscribed(subscriptionsByClient, client, Subscription(mailbox, hash));
      Detach(client, mailbox, hash);
    }

    /** Forgets the client: every triple of its, and no other. */
    method Remove(client: Client)
      requires Valid()
      modifies this
      ensures Valid() && Triples() == iset triple | triple in old(Triples()) && triple.client != client
    {
      var left := SubscriptionsOf(subscriptionsByClient, client);
      while left != {}
        invariant Valid()
        invariant Triples() == iset triple | triple in old(Triples())
                                && (triple.client == client ==> Subscription(triple.mailbox, triple.hash) in left)
        decreases left
      {
        var subscription :| subscription in left;
        RemoveSubscription(client, subscription.mailbox, subscription.hash);
        left := left - {subscription};
      }
    }

    /** Only the revoked reader's subscriptions stop. */
    method DropReader(mailbox: string, hash: string)
      requires Valid()
      modifies this
      ensures Valid()
      ensures Triples() == iset triple | triple in old(Triples()) && !(triple.mailbox == mailbox && triple.hash == hash)
    {
      var left := ClientsOf(ReadersOf(clientsByMailbox, mailbox), hash);
      while left != {}
        invariant Valid()
        invariant Triples() == iset triple | triple in old(Triples())
                                && (triple.mailbox == mailbox && triple.hash == hash ==> triple.client in left)
        decreases left
      {
        var client :| client in left;
        RemoveSubscription(client, mailbox, hash);
        left := left - {client};
      }
    }

    /** Forgets the mailbox: every triple on it, and no other. */
    method DropMailbox(mailbox: string)
      requires Valid()
      modifies this
      ensures Valid() && Triples() == iset triple | triple in old(Triples()) && triple.mailbox != mailbox
    {
      var left := ReadersOf(clientsByMailbox, mailbox).Keys;
      while left != {}
        invariant Valid()
        invariant Triples() == iset triple | triple in old(Triples())
                                && (triple.mailbox == mailbox ==> triple.hash in left)
        decreases left
      {
        var hash :| hash in left;
        DropReader(mailbox, hash);
        left := left - {hash};
      }
    }

    /** Each client listening to the mailbox, once, under however many readers it listens. */
    method SubscribersOf(mailbox: string) returns (clients: seq<Client>)
      requires Valid()
      ensures forall client :: client in clients <==> exists hash :: Triple(client, mailbox, hash) in Triples()
      ensures forall i, j :: 0 <= i < j < |clients| ==> clients[i] != clients[j]
    {
      var readers := ReadersOf(clientsByMailbox, mailbox);
      var left := set hash, client | hash in readers && client in readers[hash] :: client;
      ghost var all := left;
      ClientsAreListeners(clientsByMailbox, mailbox, all);
      clients := [];
      while left != {}
        invariant forall client :: client in all <==> client in left || client in clients
        invariant forall client :: client in clients ==> client !in left
        invariant forall i, j :: 0 <= i < j < |clients| ==> clients[i] != clients[j]
        decreases left
      {
        var client :| client in left;
        clients := clients + [client];
        left := left - {client};
      }
    }

    method Clear()
      modifies this
      ensures Valid() && Triples() == iset{}
    {
      clientsByMailbox, subscriptionsByClient := map[], map[];
    }
  }
}
