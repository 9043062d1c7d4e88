/** Intrusive FIFO of resting orders at one price. */
module PriceLevels {
  import opened Messages
  import opened Reference

  class OrderNode {
    const orderId: int
    const price: int
    const side: Side
    var quantity: int
    var active: bool
    var prev: OrderNode?
    var next: OrderNode?

    constructor (id: int, side: Side, price: int, quantity: int)
      ensures this.orderId == id && this.price == price && this.side == side
      ensures this.quantity == quantity && active && prev == null && next == null
    {
      this.orderId, this.price, this.side, this.quantity := id, price, side, quantity;
      active, prev, next := true, null, null;
    }
  }

  ghost function DropIndex<T>(s: seq<T>, k: nat): seq<T>
    requires k < |s|
  {
    s[..k] + s[k + 1..]
  }

  lemma WithoutMembers<T>(s: seq<T>, k: nat)
    requires k < |s| && forall i, j :: 0 <= i < j < |s| ==> s[i] != s[j]
    ensures forall x :: x in DropIndex(s, k) <==> x in s && x != s[k]
  {
  }

  /** One key of a ladder. `side` and `price` name the key the level is filed
      under, `nodes` lists the chain from head to tail, and `orders` is what
      the chain stands for. */
  class PriceLevel {
    var head: OrderNode?
    var tail: OrderNode?
    var total: int
    ghost const side: Side
    ghost const price: int
    ghost var nodes: seq<OrderNode>
    ghost var orders: seq<Order>

    /** Acyclic, back-linked chain from `head` to `tail`. */
    ghost predicate Chained()
      reads this, nodes
    {
      && (forall i, j :: 0 <= i < j < |nodes| ==> nodes[i] != nodes[j])
      && (nodes == [] ==> head == null && tail == null)
      && (nodes != [] ==>
            && head == nodes[0] && tail == nodes[|nodes| - 1]
            && nodes[0].prev == null && nodes[|nodes| - 1].next == null)
      && (forall i {:trigger nodes[i].prev} :: 1 <= i < |nodes| ==> nodes[i].prev == nodes[i - 1])
      && (forall i {:trigger nodes[i].next} :: 0 <= i < |nodes| - 1 ==> nodes[i].next == nodes[i + 1])
    }

    /** The chain is made of live nodes of this price and stands for `orders`. */
    ghost predicate Linked()
      reads this, nodes
    {
      && Chained()
      && |nodes| == |orders|
      && forall i :: 0 <= i < |nodes| ==>
            nodes[i].side == side && nodes[i].price == price && nodes[i].active
            && orders[i] == Order(nodes[i].orderId, price, nodes[i].quantity)
    }

    constructor (ghost side: Side, ghost price: int)
      ensures this.side == side && this.price == price
      ensures nodes == [] && orders == [] && total == 0 && Linked()
    {
      head, tail, total := null, null, 0;
      this.side, this.price, nodes, orders := side, price, [], [];
    }

    /** Enqueue at the tail. */
    method PushBack(node: OrderNode)
      requires Linked() && node !in nodes
      requires node.side == side && node.price == price && node.active
      modifies this, node`prev, node`next, nodes`next
      ensures Linked()
      ensures nodes == old(nodes) + [node]
      ensures orders == old(orders) + [Order(node.orderId, price, node.quantity)]
      ensures total == old(total) + node.quantity
    {
      total := total + node.quantity;
      if tail == null {
        head, tail := node, node;
        node.prev, node.next := null, null;
      } else {
        node.prev, node.next := tail, null;
        tail.next := node;
        tail := node;
      }
      nodes, orders := nodes + [node], orders + [Order(node.orderId, price, node.quantity)];
    }

    /** Close the chain around a node and clear the node's own links. */
    method Splice(node: OrderNode, ghost k: nat)
      requires Chained() && k < |nodes| && nodes[k] == node
      modifies this`head, this`tail, this`nodes, nodes`prev, nodes`next
      ensures Chained()
      ensures nodes == DropIndex(old(nodes), k)
      ensures node.prev == null && node.next == null
    {
      var prev, next := node.prev, node.next;
      assert prev == if k == 0 then null else nodes[k - 1];
      assert next == if k + 1 == |nodes| then null else nodes[k + 1];
      if prev != null {
        prev.next := next;
      } else {
        head := next;
      }
      if next != null {
        next.prev := prev;
      } else {
        tail := prev;
      }
      node.prev, node.next := null, null;
      nodes := DropIndex(nodes, k);
    }

    /** Take a node out of the chain wherever it stands; the cached total is the caller's. */
    method Unlink(node: OrderNode, ghost k: nat)
      requires Linked() && k < |nodes| && nodes[k] == node
      modifies this`head, this`tail, this`nodes, this`orders, nodes`prev, nodes`next
      ensures Linked()
      ensures nodes == DropIndex(old(nodes), k)
      ensures orders == DropIndex(old(orders), k)
      ensures node.prev == null && node.next == null
    {
      Splice(node, k);
      orders := DropIndex(orders, k);
    }

    /** Take a node and its quantity out of the level. */
    method Take(node: OrderNode, ghost k: nat)
      requires Linked() && k < |nodes| && nodes[k] == node
      modifies this, nodes`prev, nodes`next
      ensures Linked()
      ensures forall n :: n in nodes <==> n in old(nodes) && n != node
      ensures orders == DropIndex(old(orders), k)
      ensures total == old(total) - node.quantity
      ensures orders == [] <==> head == null
      ensures k == 0 ==> head == old(node.next)
      ensures node.prev == null && node.next == null
    {
      total := total - node.quantity;
      Unlink(node, k);
      WithoutMembers(old(nodes), k);
    }

    /** Trade part of the head order in place. */
    method TradeHead(quantity: int)
      requires Linked() && nodes != []
      modifies this`total, this`orders, nodes`quantity
      ensures Linked()
      ensures total == old(total) - quantity
      ensures orders == [old(orders)[0].(qty := old(orders)[0].qty - quantity)] + old(orders)[1..]
    {
      total := total - quantity;
      head.quantity := head.quantity - quantity;
      orders := [orders[0].(qty := orders[0].qty - quantity)] + orders[1..];
    }
  }
}
