/** The catalogue record and the field-by-field merge that a PUT request
    applies to a stored record. */
module Products {

  /** One row of the `products` table. Every field is text, including the
      numeric-looking id, price and quantity. */
  datatype Product = Product(id: string, name: string, price: string, quantity: string)

  /** A record that a POST request may insert: no field is the empty string. */
  predicate Complete(p: Product)
  {
    p.id != "" && p.name != "" && p.price != "" && p.quantity != ""
  }

  /** The three fields that a PUT request may change. */
  datatype Field = Name | Price | Quantity

  function Get(p: Product, f: Field): string
  {
    match f
    case Name => p.name
    case Price => p.price
    case Quantity => p.quantity
  }

  /** The record a PUT request answers with: each of name, price and quantity
      comes from the request body unless the body left it empty, in which
      case the stored value is kept; the id is the body's own. */
  function Merge(stored: Product, incoming: Product): (r: Product)
    ensures r.id == incoming.id
    ensures forall f: Field :: Get(incoming, f) == "" ==> Get(r, f) == Get(stored, f)
    ensures forall f: Field :: Get(incoming, f) != "" ==> Get(r, f) == Get(incoming, f)
  {
    Product(incoming.id,
            if incoming.name == "" then stored.name else incoming.name,
            if incoming.price == "" then stored.price else incoming.price,
            if incoming.quantity == "" then stored.quantity else incoming.quantity)
  }

  /** A body whose three updatable fields are all empty changes nothing. */
  lemma MergeEmptyBodyKeepsStored(stored: Product, incoming: Product)
    requires incoming.name == "" && incoming.price == "" && incoming.quantity == ""
    ensures Merge(stored, incoming) == stored.(id := incoming.id)
  {
  }

  /** A body with every field set replaces the stored record outright. */
  lemma MergeCompleteBodyWins(stored: Product, incoming: Product)
    requires Complete(incoming)
    ensures Merge(stored, incoming) == incoming
  {
  }

  /** Merging never empties a field: a complete stored row merged with a body
      that carries an id gives a complete row. */
  lemma MergeKeepsComplete(stored: Product, incoming: Product)
    requires Complete(stored) && incoming.id != ""
    ensures Complete(Merge(stored, incoming))
  {
  }

  /** Merging the merged record again over the same stored record gives the
      same record. */
  lemma MergeIdempotent(stored: Product, incoming: Product)
    ensures Merge(stored, Merge(stored, incoming)) == Merge(stored, incoming)
  {
  }

  /** Replaying an update is harmless: the same body merged over the row the
      first update wrote back (the merged record under the query id) gives the
      same answer again. */
  lemma MergeReplay(stored: Product, incoming: Product, id: string)
    ensures Merge(Merge(stored, incoming).(id := id), incoming) == Merge(stored, incoming)
  {
  }

  /** Two successive updates have the effect of one update whose body is the
      second body merged over the first. */
  lemma MergeSuccessive(stored: Product, first: Product, second: Product)
    ensures Merge(Merge(stored, first), second) == Merge(stored, Merge(first, second))
  {
  }
}
