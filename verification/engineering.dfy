/** Lexicographic order on strings by code point: the order scikit-learn's LabelEncoder
    sorts the distinct categories in. */
module Lexicographic {

  /** The textbook definition: `a` and `b` agree on their first `k` characters, and there
      `a` has ended while `b` has not, or `a` has the smaller character. */
  predicate DiffersFirstAt(a: string, b: string, k: int)
  {
    0 <= k <= |a| && k < |b| && a[..k] == b[..k] && (k == |a| || a[k] < b[k])
  }

  /** `a` sorts strictly before `b`, computed character by character. */
  predicate Less(a: string, b: string)
    ensures Less(a, b) <==> exists k :: DiffersFirstAt(a, b, k)
  {
    if |a| == 0 then
      (assert |b| > 0 ==> DiffersFirstAt(a, b, 0); |b| > 0)
    else if |b| == 0 then false
    else if a[0] != b[0] then
      (FirstCharacterDecides(a, b); a[0] < b[0])
    else
      (DropCommonFirst(a, b); Less(a[1..], b[1..]))
  }

  /** When the first characters differ, only position 0 can be the first difference. */
  lemma FirstCharacterDecides(a: string, b: string)
    requires |a| > 0 && |b| > 0 && a[0] != b[0]
    ensures (exists k :: DiffersFirstAt(a, b, k)) <==> a[0] < b[0]
  {
    if a[0] < b[0] {
      assert DiffersFirstAt(a, b, 0);
    } else {
      assert forall k :: !DiffersFirstAt(a, b, k);
    }
  }

  /** A common first character shifts the first difference by one. */
  lemma DropCommonFirst(a: string, b: string)
    requires |a| > 0 && |b| > 0 && a[0] == b[0]
    ensures (exists k :: DiffersFirstAt(a, b, k)) <==> (exists k :: DiffersFirstAt(a[1..], b[1..], k))
  {
    if k :| DiffersFirstAt(a, b, k) {
      assert a[1..][..k - 1] == a[..k][1..] && b[1..][..k - 1] == b[..k][1..];
      assert DiffersFirstAt(a[1..], b[1..], k - 1);
    }
    if k :| DiffersFirstAt(a[1..], b[1..], k) {
      assert a[..k + 1] == [a[0]] + a[1..][..k] && b[..k + 1] == [b[0]] + b[1..][..k];
      assert DiffersFirstAt(a, b, k + 1);
    }
  }

  lemma {:induction false} Irreflexive(a: string)
    ensures !Less(a, a)
  {
    if |a| > 0 {
      Irreflexive(a[1..]);
    }
  }

  lemma {:induction false} Transitive(a: string, b: string, c: string)
    requires Less(a, b) && Less(b, c)
    ensures Less(a, c)
  {
    if |a| > 0 && |b| > 0 && |c| > 0 && a[0] == b[0] && b[0] == c[0] {
      Transitive(a[1..], b[1..], c[1..]);
    }
  }

  lemma {:induction false} Total(a: string, b: string)
    requires a != b
    ensures Less(a, b) || Less(b, a)
  {
    if |a| > 0 && |b| > 0 && a[0] == b[0] {
      assert a == [a[0]] + a[1..] && b == [b[0]] + b[1..];
      Total(a[1..], b[1..]);
    }
  }
}

/** `engineer_features`: the derived columns of the transaction table. */
module Engineering {
  import opened Sequences
  import Lexicographic

  /** The calendar fields of a parsed timestamp (day of week: Monday is 0). */
  datatype Timestamp = Timestamp(hour: int, dayOfWeek: int)

  /** A row of the raw transaction table. */
  datatype RawTransaction = RawTransaction(
    transactionId: int, timestamp: Timestamp, amount: real, merchantId: int,
    customerId: int, merchantCategory: string, fraud: int)

  /** A row of the engineered table. It has no transaction id, timestamp or raw merchant
      category: those columns are dropped. */
  datatype EngineeredTransaction = EngineeredTransaction(
    amount: real, merchantId: int, customerId: int, fraud: int,
    hour: int, dayOfWeek: int, isWeekend: int, amountLog: real,
    customerTxCount: nat, merchantTxCount: nat, merchantCategoryEncoded: nat)

  /** The table's column names. */
  datatype Column =
    | TransactionIdColumn | TimestampColumn | AmountColumn | MerchantIdColumn | CustomerIdColumn
    | MerchantCategoryColumn | FraudColumn | HourColumn | DayOfWeekColumn | IsWeekendColumn
    | AmountLogColumn | CustomerTxCountColumn | MerchantTxCountColumn | MerchantCategoryEncodedColumn

  /** The raw table's columns, in order. */
  const RawColumns: seq<Column> := [
    TransactionIdColumn, TimestampColumn, AmountColumn, MerchantIdColumn, CustomerIdColumn,
    MerchantCategoryColumn, FraudColumn]

  /** The columns `engineer_features` adds, in the order it adds them. */
  const AddedColumns: seq<Column> := [
    HourColumn, DayOfWeekColumn, IsWeekendColumn, AmountLogColumn,
    CustomerTxCountColumn, MerchantTxCountColumn, MerchantCategoryEncodedColumn]

  /** The columns it drops at the end. */
  const DroppedColumns: seq<Column> := [TransactionIdColumn, TimestampColumn, MerchantCategoryColumn]

  /** `df.drop(columns=...)`: the columns not listed, in their order. */
  function Drop(columns: seq<Column>, dropped: seq<Column>): seq<Column>
  {
    if |columns| == 0 then []
    else (if columns[0] in dropped then [] else [columns[0]]) + Drop(columns[1..], dropped)
  }

  /** Dropping keeps exactly the columns not listed. */
  lemma {:induction false} DropMembers(columns: seq<Column>, dropped: seq<Column>)
    ensures forall c :: c in Drop(columns, dropped) <==> c in columns && c !in dropped
  {
    if |columns| > 0 {
      DropMembers(columns[1..], dropped);
      assert columns == [columns[0]] + columns[1..];
    }
  }

  /** The engineered table's columns, in order. */
  function EngineeredColumns(): seq<Column>
  {
    Drop(RawColumns + AddedColumns, DroppedColumns)
  }

  lemma {:induction false} DropAppend(a: seq<Column>, b: seq<Column>, dropped: seq<Column>)
    ensures Drop(a + b, dropped) == Drop(a, dropped) + Drop(b, dropped)
  {
    if |a| > 0 {
      assert (a + b)[1..] == a[1..] + b;
      DropAppend(a[1..], b, dropped);
    } else {
      assert a + b == b;
    }
  }

  lemma {:induction false} DropNone(columns: seq<Column>, dropped: seq<Column>)
    requires forall i :: 0 <= i < |columns| ==> columns[i] !in dropped
    ensures Drop(columns, dropped) == columns
  {
    if |columns| > 0 {
      DropNone(columns[1..], dropped);
    }
  }

  /** Of the raw columns, the drop keeps amount, the two ids and the label. */
  lemma RawKept()
    ensures Drop(RawColumns, DroppedColumns) == [AmountColumn, MerchantIdColumn, CustomerIdColumn, FraudColumn]
  {
    var raw := RawColumns;
    assert raw[6..][1..] == [] && raw[5..][1..] == raw[6..] && raw[4..][1..] == raw[5..];
    assert raw[3..][1..] == raw[4..] && raw[2..][1..] == raw[3..] && raw[1..][1..] == raw[2..];
    assert Drop(raw[6..], DroppedColumns) == [FraudColumn];
    assert Drop(raw[5..], DroppedColumns) == [FraudColumn];
    assert Drop(raw[4..], DroppedColumns) == [CustomerIdColumn, FraudColumn];
    assert Drop(raw[3..], DroppedColumns) == [MerchantIdColumn, CustomerIdColumn, FraudColumn];
    assert Drop(raw[2..], DroppedColumns) == [AmountColumn, MerchantIdColumn, CustomerIdColumn, FraudColumn];
    assert Drop(raw[1..], DroppedColumns) == [AmountColumn, MerchantIdColumn, CustomerIdColumn, FraudColumn];
    assert raw[0..] == raw;
  }

  /** Appending columns none of which is dropped appends them unchanged. */
  lemma DropKeepsTail(columns: seq<Column>, added: seq<Column>, dropped: seq<Column>)
    requires forall i :: 0 <= i < |added| ==> added[i] !in dropped
    ensures Drop(columns + added, dropped) == Drop(columns, dropped) + added
  {
    DropAppend(columns, added, dropped);
    DropNone(added, dropped);
  }

  /** The engineered table keeps amount, ids and label, then the added columns, and
      none of the dropped ones. */
  lemma EngineeredSchema()
    ensures EngineeredColumns() == [AmountColumn, MerchantIdColumn, CustomerIdColumn, FraudColumn] + AddedColumns
    ensures forall c :: c in DroppedColumns ==> c !in EngineeredColumns()
  {
    RawKept();
    DropKeepsTail(RawColumns, AddedColumns, DroppedColumns);
    DropMembers(RawColumns + AddedColumns, DroppedColumns);
  }

  /** `day_of_week.isin([5, 6]).astype(int)`. */
  function WeekendFlag(dayOfWeek: int): (r: int)
    ensures r == 0 || r == 1
    ensures r == 1 <==> dayOfWeek == 5 || dayOfWeek == 6
  {
    if dayOfWeek == 5 || dayOfWeek == 6 then 1 else 0
  }

  function CustomerIds(rows: seq<RawTransaction>): (r: seq<int>)
    ensures |r| == |rows| && forall i :: 0 <= i < |rows| ==> r[i] == rows[i].customerId
  {
    seq(|rows|, i requires 0 <= i < |rows| => rows[i].customerId)
  }

  function MerchantIds(rows: seq<RawTransaction>): (r: seq<int>)
    ensures |r| == |rows| && forall i :: 0 <= i < |rows| ==> r[i] == rows[i].merchantId
  {
    seq(|rows|, i requires 0 <= i < |rows| => rows[i].merchantId)
  }

  /** The distinct merchant categories of the table. */
  function Categories(rows: seq<RawTransaction>): set<string>
  {
    set i | 0 <= i < |rows| :: rows[i].merchantCategory
  }

  /** LabelEncoder's code: the rank of `c` among the table's distinct categories sorted. */
  function CategoryCode(categories: set<string>, c: string): (code: nat)
    ensures c in categories ==> code < |categories|
  {
    var below := set d | d in categories && Lexicographic.Less(d, c);
    if c in categories then
      Lexicographic.Irreflexive(c);
      ProperSubsetSmaller(below, categories, c);
      |below|
    else |below|
  }

  /** One engineered row; `customers`, `merchants` and `categories` are the whole table's
      columns the group counts and the encoder see. */
  function EngineerRow(row: RawTransaction, customers: seq<int>, merchants: seq<int>,
                       categories: set<string>, log1p: real -> real): EngineeredTransaction
  {
    EngineeredTransaction(
      row.amount, row.merchantId, row.customerId, row.fraud,
      row.timestamp.hour, row.timestamp.dayOfWeek, WeekendFlag(row.timestamp.dayOfWeek),
      log1p(row.amount),
      Occurrences(customers, row.customerId), Occurrences(merchants, row.merchantId),
      CategoryCode(categories, row.merchantCategory))
  }

  /** `engineer_features`, row by row. `log1p` is the floating-point log(1 + x). */
  function EngineerFeatures(rows: seq<RawTransaction>, log1p: real -> real): (r: seq<EngineeredTransaction>)
    ensures |r| == |rows|
    ensures forall i :: 0 <= i < |rows| ==>
              && r[i].amount == rows[i].amount && r[i].fraud == rows[i].fraud
              && r[i].customerId == rows[i].customerId && r[i].merchantId == rows[i].merchantId
              && r[i].hour == rows[i].timestamp.hour && r[i].dayOfWeek == rows[i].timestamp.dayOfWeek
              && (r[i].isWeekend == 1 <==> rows[i].timestamp.dayOfWeek == 5 || rows[i].timestamp.dayOfWeek == 6)
              && (r[i].isWeekend == 0 || r[i].isWeekend == 1)
              && r[i].amountLog == log1p(rows[i].amount)
    ensures forall i :: 0 <= i < |rows| ==>
              && r[i].customerTxCount == Occurrences(CustomerIds(rows), rows[i].customerId)
              && r[i].merchantTxCount == Occurrences(MerchantIds(rows), rows[i].merchantId)
              && r[i].merchantCategoryEncoded == CategoryCode(Categories(rows), rows[i].merchantCategory)
  {
    var customers, merchants, cats := CustomerIds(rows), MerchantIds(rows), Categories(rows);
    seq(|rows|, i requires 0 <= i < |rows| => EngineerRow(rows[i], customers, merchants, cats, log1p))
  }

  /** `groupby(...).transform('count')`: each row's customer and merchant counts are the
      numbers of rows sharing its customer and its merchant, so at least one. */
  lemma GroupCounts(rows: seq<RawTransaction>, log1p: real -> real, i: int)
    requires 0 <= i < |rows|
    ensures var r := EngineerFeatures(rows, log1p);
            && r[i].customerTxCount == |set j | 0 <= j < |rows| && rows[j].customerId == rows[i].customerId|
            && r[i].merchantTxCount == |set j | 0 <= j < |rows| && rows[j].merchantId == rows[i].merchantId|
            && r[i].customerTxCount >= 1 && r[i].merchantTxCount >= 1
  {
    var customers, merchants := CustomerIds(rows), MerchantIds(rows);
    OccurrencesArePositions(customers, rows[i].customerId);
    OccurrencesArePositions(merchants, rows[i].merchantId);
    assert Positions(customers, rows[i].customerId) == set j | 0 <= j < |rows| && rows[j].customerId == rows[i].customerId;
    assert Positions(merchants, rows[i].merchantId) == set j | 0 <= j < |rows| && rows[j].merchantId == rows[i].merchantId;
    OccurrencesPositive(customers, i);
    OccurrencesPositive(merchants, i);
  }

  /** A strict subset has fewer elements. */
  lemma ProperSubsetSmaller(a: set<string>, b: set<string>, x: string)
    requires a <= b && x in b && x !in a
    ensures |a| < |b|
  {
    assert b == a + (b - a);
    assert x in b - a;
  }

  /** A category sorting before another gets a smaller code. */
  lemma CodeMonotone(categories: set<string>, c1: string, c2: string)
    requires c1 in categories && Lexicographic.Less(c1, c2)
    ensures CategoryCode(categories, c1) < CategoryCode(categories, c2)
  {
    var below1 := set d | d in categories && Lexicographic.Less(d, c1);
    var below2 := set d | d in categories && Lexicographic.Less(d, c2);
    forall d | d in below1 ensures d in below2 {
      Lexicographic.Transitive(d, c1, c2);
    }
    Lexicographic.Irreflexive(c1);
    ProperSubsetSmaller(below1, below2, c1);
  }

  /** The category encoding is a relabelling: two rows get the same code exactly when
      they have the same category, and codes respect the categories' sorted order. */
  lemma CategoryEncodingInjective(rows: seq<RawTransaction>, log1p: real -> real, i: int, j: int)
    requires 0 <= i < |rows| && 0 <= j < |rows|
    ensures var r := EngineerFeatures(rows, log1p);
            && ((r[i].merchantCategoryEncoded == r[j].merchantCategoryEncoded) <==>
                (rows[i].merchantCategory == rows[j].merchantCategory))
            && (Lexicographic.Less(rows[i].merchantCategory, rows[j].merchantCategory) ==>
                r[i].merchantCategoryEncoded < r[j].merchantCategoryEncoded)
            && r[i].merchantCategoryEncoded < |Categories(rows)|
  {
    var cats := Categories(rows);
    var ci, cj := rows[i].merchantCategory, rows[j].merchantCategory;
    assert ci in cats && cj in cats;
    if ci != cj {
      Lexicographic.Total(ci, cj);
      if Lexicographic.Less(ci, cj) {
        CodeMonotone(cats, ci, cj);
      } else {
        CodeMonotone(cats, cj, ci);
      }
    } else {
      Lexicographic.Irreflexive(ci);
    }
  }
}
