/**
 * The inbox queries of SmsDatabase: the unread bodies of one sender, marking a
 * sender's messages read, and the per-sender unread counts.
 *
 * The inbox content provider is a sequence of rows. What a query returns is a
 * cursor: None for a null cursor, otherwise the rows (or the columns) the
 * provider hands back. Predicates below say which cursors a query may return.
 */
module SmsDatabase {
  import opened Wrappers

  /** One inbox row, with the columns the core reads or writes. */
  datatype Row = Row(address: string, date: int, body: string, read: bool)

  /** The selection "read = 0 AND address = ?" with the number as argument. */
  predicate IsUnreadFrom(r: Row, phoneNumber: string)
  {
    !r.read && r.address == phoneNumber
  }

  /** The rows of the store that match the selection, in store order. */
  function UnreadFrom(store: seq<Row>, phoneNumber: string): (rows: seq<Row>)
    ensures forall r :: multiset(rows)[r] == if IsUnreadFrom(r, phoneNumber) then multiset(store)[r] else 0
    ensures forall r :: r in rows <==> r in store && IsUnreadFrom(r, phoneNumber)
  {
    if store == [] then []
    else
      assert store == [store[0]] + store[1..];
      if IsUnreadFrom(store[0], phoneNumber) then [store[0]] + UnreadFrom(store[1..], phoneNumber)
      else UnreadFrom(store[1..], phoneNumber)
  }

  /** Rows in ascending date order, as "date ASC" asks. */
  predicate SortedByDate(rows: seq<Row>)
  {
    forall i, j :: 0 <= i < j < |rows| ==> rows[i].date <= rows[j].date
  }

  /**
   * A cursor the provider may return for getUnread's query: the matching rows,
   * each as often as it is stored, ordered by date (ties in any order).
   */
  ghost predicate IsUnreadQueryResult(store: seq<Row>, phoneNumber: string, rows: seq<Row>)
  {
    multiset(rows) == multiset(UnreadFrom(store, phoneNumber)) && SortedByDate(rows)
  }

  /** The body column of each row, in cursor order. */
  function Bodies(rows: seq<Row>): (bodies: seq<string>)
    ensures |bodies| == |rows|
    ensures forall k :: 0 <= k < |rows| ==> bodies[k] == rows[k].body
  {
    if rows == [] then [] else [rows[0].body] + Bodies(rows[1..])
  }

  /**
   * getUnread(phoneNumber): the body of every row of the cursor, in cursor
   * order; an empty list for a null cursor.
   */
  method GetUnread(cursor: Option<seq<Row>>) returns (messages: seq<string>)
    ensures cursor.None? ==> messages == []
    ensures cursor.Some? ==> messages == Bodies(cursor.value)
  {
    messages := [];
    if cursor.None? {
      return;
    }
    var rows := cursor.value;
    var i := 0;
    while i < |rows|
      invariant 0 <= i <= |rows|
      invariant |messages| == i
      invariant forall k :: 0 <= k < i ==> messages[k] == rows[k].body
    {
      messages := messages + [rows[i].body];
      i := i + 1;
    }
  }

  /** Bodies distributes over concatenation. */
  lemma BodiesAppend(a: seq<Row>, b: seq<Row>)
    ensures Bodies(a + b) == Bodies(a) + Bodies(b)
  {
  }

  /** Taking one row out of a cursor takes its body out of the bodies. */
  lemma BodiesRemove(b: seq<Row>, j: int)
    requires 0 <= j < |b|
    ensures multiset(Bodies(b)) == multiset(Bodies(b[..j] + b[j + 1 ..])) + multiset{b[j].body}
  {
    var x, y := b[..j], b[j + 1 ..];
    assert b == x + ([b[j]] + y);
    BodiesAppend(x, [b[j]] + y);
    BodiesAppend([b[j]], y);
    BodiesAppend(x, y);
    var bx, bys := Bodies(x), Bodies(y);
    assert Bodies(b) == bx + ([b[j].body] + bys);
    assert Bodies(x + y) == bx + bys;
    assert multiset(bx + ([b[j].body] + bys)) == multiset(bx) + multiset{b[j].body} + multiset(bys);
  }

  /** Taking one row out of a cursor takes it out of the multiset of rows. */
  lemma RowsRemove(b: seq<Row>, j: int)
    requires 0 <= j < |b|
    ensures multiset(b[..j] + b[j + 1 ..]) == multiset(b) - multiset{b[j]}
  {
    assert b == b[..j] + [b[j]] + b[j + 1 ..];
  }

  /** Reordering rows reorders their bodies the same way. */
  lemma {:induction false} BodiesPermutation(a: seq<Row>, b: seq<Row>)
    requires multiset(a) == multiset(b)
    ensures multiset(Bodies(a)) == multiset(Bodies(b))
    decreases |a|
  {
    if a == [] {
      assert |b| == |multiset(b)| == 0;
    } else {
      assert a[0] in multiset(b);
      var j :| 0 <= j < |b| && b[j] == a[0];
      RowsRemove(b, j);
      RowsRemove(a, 0);
      assert a[..0] + a[1..] == a[1..];
      BodiesPermutation(a[1..], b[..j] + b[j + 1 ..]);
      BodiesRemove(b, j);
      BodiesRemove(a, 0);
    }
  }

  /**
   * What getUnread promises about a cursor from its query: one message per unread
   * row from the sender, each one the body of such a row, the rows in ascending
   * date order, and the bodies exactly those of the matching rows.
   */
  lemma UnreadQueryMessages(store: seq<Row>, phoneNumber: string, rows: seq<Row>)
    requires IsUnreadQueryResult(store, phoneNumber, rows)
    ensures |Bodies(rows)| == |UnreadFrom(store, phoneNumber)|
    ensures forall k :: 0 <= k < |rows| ==> rows[k] in store && IsUnreadFrom(rows[k], phoneNumber)
    ensures forall i, j :: 0 <= i < j < |rows| ==> rows[i].date <= rows[j].date
    ensures multiset(Bodies(rows)) == multiset(Bodies(UnreadFrom(store, phoneNumber)))
  {
    var expected := UnreadFrom(store, phoneNumber);
    assert |rows| == |multiset(rows)| == |multiset(expected)| == |expected|;
    forall k | 0 <= k < |rows|
      ensures rows[k] in store && IsUnreadFrom(rows[k], phoneNumber)
    {
      assert rows[k] in multiset(rows);
      assert rows[k] in expected;
    }
    BodiesPermutation(rows, expected);
  }

  /**
   * markRead(phoneNumber): the update "read = 1 WHERE read = 0 AND address = ?".
   * Matching rows become read; every other row is left as it was.
   */
  function MarkRead(store: seq<Row>, phoneNumber: string): (updated: seq<Row>)
    ensures |updated| == |store|
    ensures forall i :: 0 <= i < |store| ==>
      updated[i] == if IsUnreadFrom(store[i], phoneNumber) then store[i].(read := true) else store[i]
  {
    if store == [] then []
    else
      var head := if IsUnreadFrom(store[0], phoneNumber) then store[0].(read := true) else store[0];
      [head] + MarkRead(store[1..], phoneNumber)
  }

  /** After markRead no message from that sender is unread. */
  lemma MarkReadClearsSender(store: seq<Row>, phoneNumber: string)
    ensures UnreadFrom(MarkRead(store, phoneNumber), phoneNumber) == []
  {
  }

  /** markRead leaves the unread messages of every other sender as they were. */
  lemma {:induction false} MarkReadKeepsOthers(store: seq<Row>, phoneNumber: string, other: string)
    requires other != phoneNumber
    ensures UnreadFrom(MarkRead(store, phoneNumber), other) == UnreadFrom(store, other)
    decreases |store|
  {
    if store != [] {
      var updated := MarkRead(store, phoneNumber);
      assert updated[1..] == MarkRead(store[1..], phoneNumber);
      MarkReadKeepsOthers(store[1..], phoneNumber, other);
      assert IsUnreadFrom(updated[0], other) == IsUnreadFrom(store[0], other);
      assert IsUnreadFrom(updated[0], other) ==> updated[0] == store[0];
    }
  }

  /** markRead is idempotent: a second call with no unread messages changes nothing. */
  lemma MarkReadIdempotent(store: seq<Row>, phoneNumber: string)
    ensures MarkRead(MarkRead(store, phoneNumber), phoneNumber) == MarkRead(store, phoneNumber)
  {
    var once := MarkRead(store, phoneNumber);
    var twice := MarkRead(once, phoneNumber);
    assert forall i :: 0 <= i < |once| ==> twice[i] == once[i];
  }

  /** The address column of every unread row, in store order. */
  function UnreadAddresses(store: seq<Row>): seq<string>
  {
    if store == [] then []
    else if !store[0].read then [store[0].address] + UnreadAddresses(store[1..])
    else UnreadAddresses(store[1..])
  }

  /** A cursor the provider may return for the counting query "read = 0": the unread addresses in any order. */
  ghost predicate IsCountQueryResult(store: seq<Row>, addresses: seq<string>)
  {
    multiset(addresses) == multiset(UnreadAddresses(store))
  }

  /** Each address occurs in the counting query as often as that sender has unread rows. */
  lemma {:induction false} UnreadAddressCount(store: seq<Row>, phoneNumber: string)
    ensures multiset(UnreadAddresses(store))[phoneNumber] == |UnreadFrom(store, phoneNumber)|
    decreases |store|
  {
    if store != [] {
      UnreadAddressCount(store[1..], phoneNumber);
    }
  }

  /**
   * The map getUnreadCounts returns: every requested number, and for a non-null
   * cursor every address on it, mapped to its number of rows on the cursor.
   */
  function UnreadCounts(phoneNumbers: set<string>, cursor: Option<seq<string>>): (counts: map<string, int>)
    ensures forall p :: p in phoneNumbers ==> p in counts
    ensures cursor.None? ==> counts.Keys == phoneNumbers && forall p :: p in counts ==> counts[p] == 0
    ensures cursor.Some? ==> forall p :: p in counts <==> p in phoneNumbers || p in cursor.value
    ensures cursor.Some? ==> forall p :: p in counts ==> counts[p] == multiset(cursor.value)[p]
    ensures forall p :: p in counts && p !in phoneNumbers ==> counts[p] >= 1
  {
    match cursor
    case None => map p | p in phoneNumbers :: 0
    case Some(addresses) => map p | p in phoneNumbers + (set a | a in addresses) :: multiset(addresses)[p]
  }

  /**
   * For a cursor from the counting query, each key's count is that sender's
   * number of unread rows in the store; in particular a requested number with
   * no unread row has count 0.
   */
  lemma UnreadCountsMatchStore(store: seq<Row>, phoneNumbers: set<string>, addresses: seq<string>)
    requires IsCountQueryResult(store, addresses)
    ensures var counts := UnreadCounts(phoneNumbers, Some(addresses));
      forall p :: p in counts ==> counts[p] == |UnreadFrom(store, p)|
  {
    forall p | p in UnreadCounts(phoneNumbers, Some(addresses))
      ensures multiset(addresses)[p] == |UnreadFrom(store, p)|
    {
      UnreadAddressCount(store, p);
    }
  }

  /**
   * getUnreadCounts(phoneNumbers): seed every number with 0, then bump the
   * bucket of the address of each cursor row, creating it at 1 when missing.
   */
  method GetUnreadCounts(phoneNumbers: set<string>, cursor: Option<seq<string>>) returns (counts: map<string, int>)
    ensures counts == UnreadCounts(phoneNumbers, cursor)
  {
    counts := map[];
    var rest := phoneNumbers;
    while rest != {}
      invariant rest <= phoneNumbers
      invariant forall p :: p in counts <==> p in phoneNumbers && p !in rest
      invariant forall p :: p in counts ==> counts[p] == 0
      decreases rest
    {
      var p :| p in rest;
      counts := counts[p := 0];
      rest := rest - {p};
    }
    if cursor.None? {
      return;
    }
    var addresses := cursor.value;
    var i := 0;
    while i < |addresses|
      invariant 0 <= i <= |addresses|
      invariant forall p :: p in counts <==> p in phoneNumbers || p in addresses[..i]
      invariant forall p :: p in counts ==> counts[p] == multiset(addresses[..i])[p]
    {
      assert addresses[..i + 1] == addresses[..i] + [addresses[i]];
      var phone := addresses[i];
      if phone in counts {
        counts := counts[phone := counts[phone] + 1];
      } else {
        counts := counts[phone := 1];
      }
      i := i + 1;
    }
    assert addresses[..i] == addresses;
  }
}
