/** The fields of an OpenFlow match: a hash table of nodes hashed by their headers alone,
    and searched without looking at the headers. */
module MatchFields {
  import opened Bits
  import H = HashInt
  import opened Hmap

  class Match {
    const fields: Hmap
    /** The header of the record each node is part of. */
    var headers: map<Node, H.Word>

    ghost predicate Valid()
      reads this, fields, fields.buckets, fields.slot.Keys
    {
      fields.Valid() && headers.Keys == fields.slot.Keys && Hashed(headers)
    }

    constructor ()
      ensures Valid() && headers == map[] && fresh(fields) && fresh(fields.buckets)
    {
      fields := new Hmap();
      headers := map[];
    }

    /** `ofl_structs_match_put8` and its like: a header may be put more than once. */
    method Put(node: Node, header: H.Word, ghost width: nat)
      requires Valid() && node !in headers && fields.n + 1 < Pow2(width) && 0 < width <= 64
      modifies this, fields, fields.buckets, fields.slot.Keys, node
      ensures Valid() && headers == old(headers)[node := header]
    {
      ghost var was := headers;
      headers := headers[node := header];
      fields.Insert(node, H.HashInt(header, 0), width);
      HashedMore(was, node, header);
    }

    /** The search by hash meets the records with the wanted header, each once, and no others. */
    method VisitHeader(header: H.Word) returns (visited: seq<Node>)
      requires Valid()
      ensures Distinct(visited) && forall x :: x in visited <==> x in headers && headers[x] == header
    {
      visited := fields.VisitWithHash(H.HashInt(header, 0));
      forall x | x in headers ensures x.hash == H.HashInt(header, 0) <==> headers[x] == header {
        assert HasHash(x, headers[x]);
        H.SameHashSameKey(headers[x], header, 0);
      }
    }
  }

  ghost predicate HasHash(x: Node, header: H.Word)
    reads x`hash
  {
    x.hash == H.HashInt(header, 0)
  }

  ghost predicate Hashed(headers: map<Node, H.Word>)
    reads headers.Keys
  {
    forall x {:trigger HasHash(x, headers[x])} :: x in headers ==> HasHash(x, headers[x])
  }

  lemma HashedMore(headers: map<Node, H.Word>, node: Node, header: H.Word)
    requires node !in headers && HasHash(node, header) && Hashed(headers)
    ensures Hashed(headers[node := header])
  {
  }
}
