// The record that both the authenticator and the DNS mapper keep in a tree.
module Records {
  type byte = x: int | 0 <= x < 256

  datatype Color = Red | Black

  /** One allocated record with its intrusive hooks. In C the tree hook (right, left,
      __parent_color) and the list hook (next, prev) are structs embedded in the record and
      container_of recovers the record; here the record is the node. The packed
      parent-and-colour word is two fields. */
  class Node {
    const name: seq<byte>
    const pass: seq<byte>

    // tree hook
    var left: Node?
    var right: Node?
    var parent: Node?
    var color: Color

    // list hook
    var next: Node?
    var prev: Node?

    // slot in the mapper's index array
    var idx: int

    constructor (name: seq<byte>, pass: seq<byte>)
      ensures this.name == name && this.pass == pass
    {
      this.name, this.pass := name, pass;
      left, right, parent, color := null, null, null, Red;
      next, prev, idx := null, null, 0;
    }
  }
}
