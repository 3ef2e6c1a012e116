/** The column check applied to an uploaded table before anything else runs. */
module Schema {

  /** The seven column names every transaction table must have. */
  const RequiredColumns: seq<string> :=
    ["Tanggal", "Nama Customer", "Nama Produk", "Kategori", "Jumlah", "Harga", "Total"]

  /** Whether every name in `required` is among `columns`. */
  function AllPresent(required: seq<string>, columns: seq<string>): (ok: bool)
    ensures ok <==> forall c :: c in required ==> c in columns
  {
    if required == [] then true
    else required[0] in columns && AllPresent(required[1..], columns)
  }

  /** A table is accepted exactly when its column names include all seven required
      names; the table itself is then kept, otherwise the upload is refused. */
  function Accepts(columns: seq<string>): (ok: bool)
    ensures ok <==> (forall c :: c in RequiredColumns ==> c in columns)
  {
    AllPresent(RequiredColumns, columns)
  }

  /** Extra columns, wherever they are placed, never cause a rejection. */
  lemma ExtraColumnsAccepted(columns: seq<string>, before: seq<string>, after: seq<string>)
    requires Accepts(columns)
    ensures Accepts(before + columns + after)
  {
  }

  /** Missing any single required column rejects the whole table. */
  lemma MissingColumnRejected(columns: seq<string>, i: nat)
    requires i < |RequiredColumns| && RequiredColumns[i] !in columns
    ensures !Accepts(columns)
  {
  }

  /** Only the set of names matters, not their order or repetition. */
  lemma ColumnOrderIrrelevant(a: seq<string>, b: seq<string>)
    requires (set c | c in a) == (set c | c in b)
    ensures Accepts(a) == Accepts(b)
  {
    var sa, sb := set x | x in a, set x | x in b;
    forall c | c in RequiredColumns
      ensures c in a <==> c in b
    {
      if c in a { assert c in sa; }
      if c in b { assert c in sb; }
    }
  }

  /** The header of the downloadable template: the keys of its one-row sample table,
      in the order the template lists them. */
  const TemplateColumns: seq<string> :=
    ["Tanggal", "Nama Customer", "Nama Produk", "Kategori", "Jumlah", "Harga", "Total"]

  /** The downloadable template's header is accepted, and it has no column the check
      does not ask for. */
  lemma TemplateAccepted()
    ensures Accepts(TemplateColumns)
    ensures forall c :: c in TemplateColumns ==> c in RequiredColumns
  {
  }
}
