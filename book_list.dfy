/**
 * The book table: each book becomes a grid row that keeps every field of the
 * book and replaces its category and tag id lists by the names they resolve
 * to, joined by ", ".
 */
module BookList {
  import opened BookTypes
  import Text
  import Decimal
  import Associations

  /**
   * A grid row: the book's own fields, in the column order title, author,
   * genre, rating, categories, tags, with the two lists turned into text.
   */
  datatype Row = Row(
    id: int,
    title: string,
    author: string,
    genre: string,
    rating: Number,
    categories: string,
    tags: string)

  /** The display text of a book's categories. */
  function GetCategoryNames(categories: seq<Category>, ids: seq<int>): (r: string)
    ensures ids == [] ==> r == ""
    ensures |ids| >= 1 && Associations.NamesFreeOfSeparator(categories) ==>
      Text.Split(r, Text.CommaSpace) == Associations.Slots(categories, ids)
  {
    Associations.ResolveNames(categories, ids)
  }

  /** The display text of a book's tags. */
  function GetTagNames(tags: seq<Tag>, ids: seq<int>): (r: string)
    ensures ids == [] ==> r == ""
    ensures |ids| >= 1 && Associations.NamesFreeOfSeparator(tags) ==>
      Text.Split(r, Text.CommaSpace) == Associations.Slots(tags, ids)
  {
    Associations.ResolveNames(tags, ids)
  }

  /** One book's row: the spread of the book with the two lists overridden. */
  function RowOf(book: Book, categories: seq<Category>, tags: seq<Tag>): (row: Row)
    ensures row.id == book.id && row.title == book.title && row.author == book.author
    ensures row.genre == book.genre && row.rating == book.rating
    ensures book.categories == [] ==> row.categories == ""
    ensures book.tags == [] ==> row.tags == ""
  {
    Row(book.id, book.title, book.author, book.genre, book.rating,
        GetCategoryNames(categories, book.categories),
        GetTagNames(tags, book.tags))
  }

  /** The rows of the table, one per book, in the order of the books. */
  function Rows(books: seq<Book>, categories: seq<Category>, tags: seq<Tag>): (r: seq<Row>)
    ensures |r| == |books|
    ensures forall i :: 0 <= i < |books| ==> r[i] == RowOf(books[i], categories, tags)
  {
    seq(|books|, i requires 0 <= i < |books| => RowOf(books[i], categories, tags))
  }

  /** Dropping the two text columns and putting the id lists back gives the book again. */
  function Unresolved(row: Row, book: Book): (b: Book)
    ensures b.id == row.id && b.categories == book.categories && b.tags == book.tags
  {
    Book(row.id, row.title, row.author, row.genre, row.rating, book.categories, book.tags)
  }

  /** Every row keeps the fields of its book: only the two lists are rewritten. */
  lemma {:induction false} RowsKeepBooks(books: seq<Book>, categories: seq<Category>, tags: seq<Tag>)
    ensures forall i :: 0 <= i < |books| ==>
      Unresolved(Rows(books, categories, tags)[i], books[i]) == books[i]
  {
    forall i | 0 <= i < |books|
      ensures Unresolved(Rows(books, categories, tags)[i], books[i]) == books[i]
    {
      var row := Rows(books, categories, tags)[i];
      assert row == RowOf(books[i], categories, tags);
    }
  }

  /**
   * When no name contains ", ", a row's category text splits back into one
   * piece per category id of its book, and likewise its tag text.
   */
  lemma RowSplitsBack(books: seq<Book>, categories: seq<Category>, tags: seq<Tag>, i: nat)
    requires i < |books|
    ensures Associations.NamesFreeOfSeparator(categories) && books[i].categories != [] ==>
      Text.Split(Rows(books, categories, tags)[i].categories, Text.CommaSpace)
        == Associations.Slots(categories, books[i].categories)
    ensures Associations.NamesFreeOfSeparator(tags) && books[i].tags != [] ==>
      Text.Split(Rows(books, categories, tags)[i].tags, Text.CommaSpace)
        == Associations.Slots(tags, books[i].tags)
  {
    assert Rows(books, categories, tags)[i] == RowOf(books[i], categories, tags);
  }

  /**
   * A category id whose decimal rendering is carried by entry k, and by no
   * earlier entry, shows entry k's name in its slot of the row.
   */
  lemma RowShowsKnownCategory(books: seq<Book>, categories: seq<Category>, tags: seq<Tag>,
                              i: nat, j: nat, k: nat)
    requires i < |books| && j < |books[i].categories| && k < |categories|
    requires Associations.NamesFreeOfSeparator(categories)
    requires categories[k].id == Decimal.IntToDecimal(books[i].categories[j])
    requires forall m :: 0 <= m < k ==> categories[m].id != categories[k].id
    ensures var parts := Text.Split(Rows(books, categories, tags)[i].categories, Text.CommaSpace);
      j < |parts| && parts[j] == categories[k].name
  {
    RowSplitsBack(books, categories, tags, i);
    Associations.ResolvesToFirstMatch(categories, books[i].categories[j], k);
  }
}
