/** The pool's maps from account to transaction list, seen as books. */
module Accounts {
  import opened Transactions
  import opened TxLists
  import opened PoolState

  ghost predicate ListIs(l: TxList, a: Address, strict: bool, m: TxMap)
    reads l
  {
    l.Valid() && l.strict == strict && l.owner == a && l.items == m
  }

  class AccountLists {
    const strict: bool
    var lists: map<Address, TxList>
    ghost var book: Book           // the contents of the lists
    ghost var Repr: set<TxList>

    /** Every account has a list object of its own, which holds what the book says. */
    ghost predicate Valid()
      reads this, Repr
    {
      && lists.Keys == book.Keys
      && (forall l :: l in Repr ==> l.strict == strict)
      && (forall a :: a in lists ==> lists[a] in Repr && ListIs(lists[a], a, strict, book[a]))
    }

    constructor (strict: bool)
      ensures Valid() && this.strict == strict && book == map[] && Repr == {}
    {
      this.strict := strict;
      lists, book, Repr := map[], map[], {};
    }

    /** Makes sure account `a` has a list. */
    method Open(a: Address)
      requires Valid()
      modifies this
      ensures Valid() && old(Repr) <= Repr && fresh(Repr - old(Repr))
      ensures a in book && book == old(book)[a := ListOf(old(book), a)]
    {
      hide Indexed, Listing;
      if a !in lists {
        var list := new TxList(strict, a);
        lists, book, Repr := lists[a := list], book[a := map[]], Repr + {list};
      }
    }

    method Add(tx: Tx) returns (inserted: bool)
      requires Valid() && tx.from in book
      modifies this`book, Repr
      ensures Valid()
      ensures inserted <==> !Taken(old(book), tx.from, tx.nonce)
      ensures book == if inserted then File(old(book), tx) else old(book)
    {
      hide Indexed, Listing;
      inserted := lists[tx.from].Add(tx);
      book := book[tx.from := lists[tx.from].items];
    }

    method Forward(a: Address, threshold: Nonce) returns (gone: seq<Tx>)
      requires Valid() && a in book
      modifies this`book, Repr
      ensures Valid()
      ensures a in book && book == old(book)[a := book[a]] && Peeled(old(book)[a], gone, book[a])
      ensures forall t :: t in gone ==> t.nonce < threshold
      ensures forall n :: n in book[a] ==> threshold <= n
    {
      hide Indexed, Listing, Peeled;
      gone := lists[a].Forward(threshold);
      book := book[a := lists[a].items];
    }

    method Ready(a: Address, start: Nonce) returns (ready: seq<Tx>)
      requires Valid() && a in book
      modifies this`book, Repr
      ensures Valid()
      ensures a in book && book == old(book)[a := book[a]] && Peeled(old(book)[a], ready, book[a])
      ensures Consecutive(ready)
      ensures ready == [] ==> forall n :: n in book[a] ==> start < n
      ensures ready != [] ==> ready[0].nonce <= start && ready[|ready| - 1].nonce + 1 !in book[a]
    {
      hide Indexed, Listing, Peeled;
      ready := lists[a].Ready(start);
      book := book[a := lists[a].items];
    }

    method Cap(a: Address, threshold: nat) returns (drops: seq<Tx>)
      requires Valid() && a in book
      modifies this`book, Repr
      ensures Valid()
      ensures a in book && book == old(book)[a := book[a]] && Capped(old(book)[a], drops, book[a])
      ensures |book[a]| == if |old(book)[a]| <= threshold then |old(book)[a]| else threshold
    {
      hide Indexed, Listing, Capped;
      drops := lists[a].Cap(threshold);
      book := book[a := lists[a].items];
    }

    method Remove(tx: Tx) returns (removed: bool, invalids: seq<Tx>)
      requires Valid() && tx.from in book
      modifies this`book, Repr
      ensures Valid()
      ensures removed <==> Taken(old(book), tx.from, tx.nonce)
      ensures !removed ==> book == old(book) && invalids == []
      ensures removed ==>
                && tx.from in book && book == old(book)[tx.from := book[tx.from]]
                && Detached(old(book)[tx.from] - {tx.nonce}, invalids, book[tx.from]) && Distinct(invalids)
      ensures removed && strict ==>
                && (forall t :: t in invalids ==> tx.nonce < t.nonce)
                && (forall n :: n in book[tx.from] ==> n < tx.nonce)
      ensures !strict ==> invalids == []
    {
      hide Indexed, Listing, Detached;
      removed, invalids := lists[tx.from].Remove(tx);
      book := book[tx.from := lists[tx.from].items];
    }

    method Flatten(a: Address) returns (txs: seq<Tx>)
      requires Valid() && a in book
      modifies Repr
      ensures Valid() && Listing(txs, book[a])
    {
      hide Indexed, Listing;
      txs := lists[a].Flatten();
    }

    method Delete(a: Address)
      requires Valid()
      modifies this`lists, this`book
      ensures Valid() && book == old(book) - {a}
    {
      hide Indexed, Listing;
      lists, book := lists - {a}, book - {a};
    }

    method DeleteIfEmpty(a: Address)
      requires Valid() && a in book
      modifies this`lists, this`book
      ensures Valid() && book == Trimmed(old(book), a, old(book)[a])
    {
      hide Indexed, Listing;
      if |lists[a].items| == 0 {
        Delete(a);
      }
    }

    /** list.Len() */
    method Len(a: Address) returns (n: nat)
      requires Valid() && a in book
      ensures n == |book[a]|
    {
      n := |lists[a].items|;
    }

    method Contains(a: Address) returns (b: bool)
      requires Valid()
      ensures b <==> a in book
    {
      b := a in lists;
    }

    /** list.txs.Get(nonce) != nil */
    method Has(a: Address, nonce: Nonce) returns (b: bool)
      requires Valid()
      ensures b <==> Taken(book, a, nonce)
    {
      b := a in lists && nonce in lists[a].items;
    }

    /** The keys of the map, in some order. */
    method Accounts() returns (accounts: seq<Address>)
      requires Valid()
      ensures forall a :: a in accounts <==> a in book
      ensures forall i, j :: 0 <= i < j < |accounts| ==> accounts[i] != accounts[j]
    {
      var todo := lists.Keys;
      accounts := [];
      while todo != {}
        invariant todo <= lists.Keys
        invariant forall a :: a in accounts <==> a in lists && a !in todo
        invariant forall i, j :: 0 <= i < j < |accounts| ==> accounts[i] != accounts[j]
      {
        var a :| a in todo;
        assert a !in accounts;
        accounts := accounts + [a];
        todo := todo - {a};
      }
    }
  }
}
