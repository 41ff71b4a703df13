/** The decision logic of `sync_symbols.py`: which upstream symbols are
    listable, which of them the `stocks` collection lacks, and the list of
    records to insert, in symbol order. The HTTP fetch and the database
    reads and writes stay outside: the upstream records and the stored
    collection are inputs. */
module SymbolSync {
  import opened Wrappers
  import opened Text

  /** An upstream symbol record, as in
      `{"symbol":..., "name":..., "sectorName":..., "isETF":..., "isDebt":...}`;
      an absent `name` is `""` and an absent `isDebt` is `false`. */
  datatype Item = Item(symbol: string, name: string, sectorName: string, isEtf: bool, isDebt: bool)

  /** The name rule of `main`: a stripped name that is blank, contains
      `(r)` in any letter case, or is `()` disqualifies a record. */
  predicate GoodName(name: string)
  {
    var n := Strip(name);
    n != [] && !Contains(LowerAscii(n), "(r)") && n != "()"
  }

  /** A record `main` keeps: not a debt instrument and with a good name. */
  predicate Listable(item: Item)
  {
    !item.isDebt && GoodName(item.name)
  }

  /** `psx_symbols_dict` after the loop over `items`: each listable record
      is stored under its symbol, a later one replacing an earlier one. */
  function Candidates(items: seq<Item>): map<string, Item>
    decreases |items|
  {
    if items == [] then map[]
    else
      var m := Candidates(items[..|items| - 1]);
      var item := items[|items| - 1];
      if Listable(item) then m[item.symbol := item] else m
  }

  /** `item` is a listable record for `sym`. */
  predicate Offers(item: Item, sym: string)
  {
    Listable(item) && item.symbol == sym
  }

  /** A symbol is a candidate exactly when some listable record carries
      it: debt instruments and records with bad names never appear. */
  lemma {:induction false} CandidatesMember(items: seq<Item>, sym: string)
    ensures sym in Candidates(items) <==> exists i :: 0 <= i < |items| && Offers(items[i], sym)
    decreases |items|
  {
    if items != [] {
      var init := items[..|items| - 1];
      var last := items[|items| - 1];
      CandidatesMember(init, sym);
      assert sym in Candidates(items) <==> sym in Candidates(init) || Offers(last, sym);
      if sym in Candidates(init) {
        var i :| 0 <= i < |init| && Offers(init[i], sym);
        assert init[i] == items[i];
      } else if !Offers(last, sym) {
        forall i | 0 <= i < |items|
          ensures !Offers(items[i], sym)
        {
          if i < |init| {
            assert init[i] == items[i];
          }
        }
      }
    }
  }

  /** The last listable record with a symbol is the one stored under it:
      a later duplicate replaces an earlier one. */
  lemma {:induction false} CandidatesLastWins(items: seq<Item>, sym: string, i: nat)
    requires i < |items| && Offers(items[i], sym)
    requires forall j :: i < j < |items| ==> !Offers(items[j], sym)
    ensures sym in Candidates(items) && Candidates(items)[sym] == items[i]
    decreases |items|
  {
    if i < |items| - 1 {
      var init := items[..|items| - 1];
      assert init[i] == items[i];
      assert !Offers(items[|items| - 1], sym);
      CandidatesLastWins(init, sym, i);
    }
  }

  /** Every candidate is listable and stored under its own symbol. */
  lemma {:induction false} CandidatesAreListable(items: seq<Item>, sym: string)
    requires sym in Candidates(items)
    ensures Listable(Candidates(items)[sym]) && Candidates(items)[sym].symbol == sym
    decreases |items|
  {
    var init := items[..|items| - 1];
    var last := items[|items| - 1];
    if !(Listable(last) && last.symbol == sym) {
      CandidatesAreListable(init, sym);
    }
  }

  /** The first loop of `main`, filling `psx_symbols_dict`. */
  method BuildCandidates(items: seq<Item>) returns (psxSymbols: map<string, Item>)
    ensures psxSymbols == Candidates(items)
  {
    psxSymbols := map[];
    for i := 0 to |items|
      invariant psxSymbols == Candidates(items[..i])
    {
      var item := items[i];
      assert items[..i + 1][..i] == items[..i];
      if item.isDebt {
        continue;
      }
      var name := Strip(item.name);
      if name == [] || Contains(LowerAscii(name), "(r)") || name == "()" {
        continue;
      }
      psxSymbols := psxSymbols[item.symbol := item];
    }
    assert items[..|items|] == items;
  }

  /** Python's `<` on strings: code point by code point, a proper prefix
      coming first. */
  predicate Below(a: string, b: string)
    decreases |a|
  {
    if a == [] then b != []
    else if b == [] then false
    else if a[0] != b[0] then a[0] < b[0]
    else Below(a[1..], b[1..])
  }

  /** `Below` is a strict total order. */
  lemma {:induction false} BelowIrreflexive(a: string)
    ensures !Below(a, a)
    decreases |a|
  {
    if a != [] {
      BelowIrreflexive(a[1..]);
    }
  }

  lemma {:induction false} BelowTransitive(a: string, b: string, c: string)
    requires Below(a, b) && Below(b, c)
    ensures Below(a, c)
    decreases |a|
  {
    if a != [] && a[0] == b[0] && b[0] == c[0] {
      BelowTransitive(a[1..], b[1..], c[1..]);
    }
  }

  lemma {:induction false} BelowTotal(a: string, b: string)
    requires a != b
    ensures Below(a, b) || Below(b, a)
    decreases |a|
  {
    if a != [] && b != [] && a[0] == b[0] {
      assert a == [a[0]] + a[1..] && b == [b[0]] + b[1..];
      BelowTotal(a[1..], b[1..]);
    }
  }

  lemma BelowAsymmetric(a: string, b: string)
    requires Below(a, b)
    ensures !Below(b, a)
  {
    if Below(b, a) {
      BelowTransitive(a, b, a);
      BelowIrreflexive(a);
    }
  }

  /** Strictly ascending in `Below`, hence without repeats. */
  predicate Ascending(r: seq<string>)
  {
    forall i, j :: 0 <= i < j < |r| ==> Below(r[i], r[j])
  }

  /** `m` comes before every other element of `s`. */
  predicate IsLeast(m: string, s: set<string>)
  {
    m in s && forall y :: y in s && y != m ==> Below(m, y)
  }

  /** Every non-empty finite set of strings has a least element. */
  lemma {:induction false} LeastExists(s: set<string>)
    requires s != {}
    ensures exists m :: IsLeast(m, s)
    decreases |s|
  {
    var x :| x in s;
    if s != {x} {
      var rest := s - {x};
      LeastExists(rest);
      var m :| IsLeast(m, rest);
      if Below(x, m) {
        forall y | y in s && y != x
          ensures Below(x, y)
        {
          if y != m {
            BelowTransitive(x, m, y);
          }
        }
        assert IsLeast(x, s);
      } else {
        BelowTotal(x, m);
        assert IsLeast(m, s);
      }
    } else {
      assert IsLeast(x, s);
    }
  }

  /** There is only one ascending listing of a set. */
  lemma {:induction false} AscendingUnique(a: seq<string>, b: seq<string>)
    requires Ascending(a) && Ascending(b)
    requires forall x :: x in a <==> x in b
    ensures a == b
    decreases |a|
  {
    if b != [] {
      assert b[0] in a;
    }
    if a != [] {
      assert a[0] in b;
      if a[0] != b[0] {
        var i :| 0 <= i < |b| && b[i] == a[0];
        var j :| 0 <= j < |a| && a[j] == b[0];
        assert Below(b[0], a[0]);
        assert Below(a[0], b[0]);
        BelowAsymmetric(a[0], b[0]);
      }
      forall x
        ensures x in a[1..] <==> x in b[1..]
      {
        if x in a[1..] {
          var k :| 1 <= k < |a| && a[k] == x;
          assert Below(a[0], x);
          BelowIrreflexive(x);
          assert x in b && x != b[0];
        }
        if x in b[1..] {
          var k :| 1 <= k < |b| && b[k] == x;
          assert Below(b[0], x);
          BelowIrreflexive(x);
          assert x in a && x != a[0];
        }
      }
      AscendingUnique(a[1..], b[1..]);
      assert a == [a[0]] + a[1..] && b == [b[0]] + b[1..];
    }
  }

  /** `sorted(s)` for a set of strings: the elements of `s`, each once, in
      ascending order. Each step takes the least string not yet taken. */
  method SortedSymbols(s: set<string>) returns (r: seq<string>)
    ensures Ascending(r)
    ensures forall x :: x in r <==> x in s
    ensures |r| == |s|
  {
    r := [];
    var rest := s;
    while rest != {}
      invariant rest <= s
      invariant Ascending(r)
      invariant forall x :: x in s <==> x in r || x in rest
      invariant forall x :: x in r ==> x !in rest
      invariant forall i, y :: 0 <= i < |r| && y in rest ==> Below(r[i], y)
      invariant |r| + |rest| == |s|
      decreases |rest|
    {
      LeastExists(rest);
      var m :| IsLeast(m, rest);
      r := r + [m];
      rest := rest - {m};
    }
  }

  /** The symbols the collection already holds (`get_db_symbols`). */
  function StoredSymbols(collection: seq<Item>): set<string>
  {
    set i | 0 <= i < |collection| :: collection[i].symbol
  }

  /** The second loop of `main`: for each symbol of `sorted(missing)`, the
      candidate record stored under it. */
  method InsertList(psxSymbols: map<string, Item>, sortedMissing: seq<string>) returns (toInsert: seq<Item>)
    requires forall i :: 0 <= i < |sortedMissing| ==> sortedMissing[i] in psxSymbols
    ensures |toInsert| == |sortedMissing|
    ensures forall i :: 0 <= i < |sortedMissing| ==> toInsert[i] == psxSymbols[sortedMissing[i]]
  {
    toInsert := [];
    for i := 0 to |sortedMissing|
      invariant |toInsert| == i
      invariant forall k :: 0 <= k < i ==> toInsert[k] == psxSymbols[sortedMissing[k]]
    {
      toInsert := toInsert + [psxSymbols[sortedMissing[i]]];
    }
  }

  /** What `main` decides for the upstream `items` and the stored
      `collection`: `None` when no candidate symbol is missing (it stops);
      otherwise the records to insert, one per missing symbol, in ascending
      symbol order, each the candidate for its symbol (so listable, by
      `CandidatesAreListable`). */
  method SyncSymbols(items: seq<Item>, collection: seq<Item>) returns (toInsert: Option<seq<Item>>)
    ensures toInsert.None? <==> Candidates(items).Keys <= StoredSymbols(collection)
    ensures toInsert.Some? ==>
      var l := toInsert.value;
      && (forall i :: 0 <= i < |l| ==> l[i].symbol in Candidates(items) && Candidates(items)[l[i].symbol] == l[i])
      && (forall sym :: sym in Candidates(items) && sym !in StoredSymbols(collection)
            <==> exists i :: 0 <= i < |l| && l[i].symbol == sym)
      && (forall i, j :: 0 <= i < j < |l| ==> Below(l[i].symbol, l[j].symbol))
  {
    var psxSymbols := BuildCandidates(items);
    var dbSymbols := StoredSymbols(collection);
    var missingSymbols := psxSymbols.Keys - dbSymbols;
    if missingSymbols == {} {
      assert forall sym :: sym in psxSymbols.Keys ==> sym in dbSymbols by {
        forall sym | sym in psxSymbols.Keys
          ensures sym in dbSymbols
        {
          assert sym !in missingSymbols;
        }
      }
      return None;
    }
    var sortedMissing := SortedSymbols(missingSymbols);
    assert forall i :: 0 <= i < |sortedMissing| ==> sortedMissing[i] in missingSymbols;
    var l := InsertList(psxSymbols, sortedMissing);
    forall i | 0 <= i < |l|
      ensures l[i].symbol == sortedMissing[i]
    {
      CandidatesAreListable(items, sortedMissing[i]);
    }
    forall sym
      ensures sym in Candidates(items) && sym !in StoredSymbols(collection)
              <==> exists i :: 0 <= i < |l| && l[i].symbol == sym
    {
      if sym in missingSymbols {
        var i :| 0 <= i < |sortedMissing| && sortedMissing[i] == sym;
        assert l[i].symbol == sym;
      }
      if exists i :: 0 <= i < |l| && l[i].symbol == sym {
        var i :| 0 <= i < |l| && l[i].symbol == sym;
        assert sortedMissing[i] in missingSymbols;
      }
    }
    return Some(l);
  }

  /** `add_missing_symbols`: an empty list returns before touching the
      database; otherwise the records are inserted after those already
      stored. */
  function AddMissingSymbols(collection: seq<Item>, missing: seq<Item>): (r: seq<Item>)
    ensures missing == [] ==> r == collection
    ensures missing != [] ==> |r| == |collection| + |missing|
    ensures missing != [] ==> r[..|collection|] == collection && r[|collection|..] == missing
  {
    if missing == [] then collection else collection + missing
  }

  /** After the insert every upstream candidate is stored, whatever was
      stored before, so a second run of the sync finds nothing missing. */
  lemma AddingClosesTheGap(items: seq<Item>, collection: seq<Item>, l: seq<Item>)
    requires forall sym :: sym in Candidates(items) && sym !in StoredSymbols(collection)
               <==> exists i :: 0 <= i < |l| && l[i].symbol == sym
    ensures Candidates(items).Keys <= StoredSymbols(AddMissingSymbols(collection, l))
    ensures StoredSymbols(AddMissingSymbols(collection, l)) == StoredSymbols(collection) + (Candidates(items).Keys - StoredSymbols(collection))
  {
    var after := AddMissingSymbols(collection, l);
    forall sym | sym in StoredSymbols(collection)
      ensures sym in StoredSymbols(after)
    {
      var i :| 0 <= i < |collection| && collection[i].symbol == sym;
      assert after[i] == collection[i];
    }
    forall sym | sym in Candidates(items) && sym !in StoredSymbols(collection)
      ensures sym in StoredSymbols(after)
    {
      var i :| 0 <= i < |l| && l[i].symbol == sym;
      assert after[|collection| + i] == l[i];
    }
    forall sym | sym in StoredSymbols(after)
      ensures sym in StoredSymbols(collection) || sym in Candidates(items)
    {
      var i :| 0 <= i < |after| && after[i].symbol == sym;
      if i >= |collection| {
        assert after[i] == l[i - |collection|];
      } else {
        assert after[i] == collection[i];
      }
    }
  }
}
