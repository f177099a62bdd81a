/** The records of `interfaces/Book.ts`, and the id-less draft the Add dialog edits. */
module BookTypes {

  /**
   * A JavaScript number as far as the forms use it: a finite value, one of the
   * two infinities, or NaN. `parseFloat` can return any of these.
   */
  datatype Number = Finite(value: real) | PosInfinity | NegInfinity | NaN

  /** `x < c` with a finite right operand; false whenever `x` is NaN. */
  predicate Less(x: Number, c: real) {
    match x
    case Finite(v) => v < c
    case NegInfinity => true
    case _ => false
  }

  /** `x > c`; false whenever `x` is NaN. */
  predicate Greater(x: Number, c: real) {
    match x
    case Finite(v) => v > c
    case PosInfinity => true
    case _ => false
  }

  /** `x >= c`; false whenever `x` is NaN. */
  predicate AtLeast(x: Number, c: real) {
    Greater(x, c) || x == Finite(c)
  }

  /** `x <= c`; false whenever `x` is NaN. */
  predicate AtMost(x: Number, c: real) {
    Less(x, c) || x == Finite(c)
  }

  /** `Book`: numeric id, three text fields, a rating, and numeric association ids. */
  datatype Book = Book(
    id: int,
    title: string,
    author: string,
    genre: string,
    rating: Number,
    categories: seq<int>,
    tags: seq<int>)

  /** `Category` and `Tag` share one shape: a string id and a display name. */
  datatype Entry = Entry(id: string, name: string)
  type Category = Entry
  type Tag = Entry

  /** The fields of a `Book` without its id: the state of the Add dialog's `newBook`. */
  datatype Draft = Draft(
    title: string,
    author: string,
    genre: string,
    rating: Number,
    categories: seq<int>,
    tags: seq<int>)

  /** `{ ...draft, id }` */
  function WithId(d: Draft, id: int): (b: Book)
    ensures b.id == id
  {
    Book(id, d.title, d.author, d.genre, d.rating, d.categories, d.tags)
  }

  /** Every field of a book except its id. */
  function Fields(b: Book): (d: Draft)
    ensures WithId(d, b.id) == b
  {
    Draft(b.title, b.author, b.genre, b.rating, b.categories, b.tags)
  }

  lemma FieldsOfWithId(d: Draft, id: int)
    ensures Fields(WithId(d, id)) == d
  {
  }
}
