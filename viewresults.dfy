/** The saved-results screen (app/Viewresults.tsx): the list of roll numbers
    that have a stored record, deleting one of them, and which roll number
    is open. */
module ViewResults {
  import opened Wrappers
  import opened JsText
  import opened Records

  /** The roll number a single key contributes: the key without its prefix,
      or nothing when the key does not start with the prefix. */
  function RollNumberOf(key: string): (r: seq<string>)
    ensures StartsWith(key, KeyPrefix) ==> |r| == 1 && RollKey(r[0]) == key
    ensures !StartsWith(key, KeyPrefix) ==> r == []
  {
    if StartsWith(key, KeyPrefix) then [StripPrefix(key)] else []
  }

  /** `keys.filter(key => key.startsWith('cgpa_data_'))` followed by
      `.map(key => key.replace('cgpa_data_', ''))`: the roll numbers of the
      prefixed keys, in key order. */
  function RollNumbersOf(keys: seq<string>): (r: seq<string>)
    ensures |r| <= |keys|
  {
    if keys == [] then [] else RollNumberOf(keys[0]) + RollNumbersOf(keys[1..])
  }

  /** A key other than `r`'s yields a roll number other than `r`, and `r`'s
      key yields `r`. */
  lemma RollNumberOfKey(key: string, r: string)
    ensures r in RollNumberOf(key) <==> key == RollKey(r)
  {
    StripRollKey(r);
    if StartsWith(key, KeyPrefix) {
      assert RollNumberOf(key) == [StripPrefix(key)];
    }
  }

  /** A roll number is listed exactly when its key is among the keys. */
  lemma {:induction false} ListedIffStored(keys: seq<string>, r: string)
    ensures r in RollNumbersOf(keys) <==> RollKey(r) in keys
  {
    if keys != [] {
      var k, rest := keys[0], keys[1..];
      ListedIffStored(rest, r);
      RollNumberOfKey(k, r);
      assert keys == [k] + rest;
      assert RollNumbersOf(keys) == RollNumberOf(k) + RollNumbersOf(rest);
    }
  }

  /** Listing a concatenation lists each part in turn, so the list follows
      the key order. */
  lemma {:induction false} RollNumbersAppend(a: seq<string>, b: seq<string>)
    ensures RollNumbersOf(a + b) == RollNumbersOf(a) + RollNumbersOf(b)
  {
    if a != [] {
      var ab := a + b;
      assert ab[0] == a[0] && ab[1..] == a[1..] + b;
      RollNumbersAppend(a[1..], b);
      assert RollNumbersOf(ab) == RollNumberOf(a[0]) + RollNumbersOf(a[1..] + b);
    } else {
      assert a + b == b;
    }
  }

  /** Keys without the prefix never produce a roll number. */
  lemma {:induction false} UnprefixedKeysIgnored(keys: seq<string>)
    requires forall i :: 0 <= i < |keys| ==> !StartsWith(keys[i], KeyPrefix)
    ensures RollNumbersOf(keys) == []
  {
    if keys != [] {
      assert forall i :: 0 <= i < |keys| - 1 ==> keys[1..][i] == keys[i + 1];
      UnprefixedKeysIgnored(keys[1..]);
    }
  }

  /** The round trip: a record saved under `cgpa_data_` + `r` is listed as
      `r`. */
  lemma SavedRollNumberListed(r: string)
    ensures RollNumbersOf([RollKey(r)]) == [r]
  {
    StripRollKey(r);
    assert [RollKey(r)][1..] == [];
  }

  /** `list.filter(rn => rn !== r)`: every entry other than `r`, in order. */
  function Without(list: seq<string>, r: string): (result: seq<string>)
    ensures |result| <= |list|
    ensures forall x :: x in result <==> x in list && x != r
  {
    if list == [] then []
    else if list[0] == r then Without(list[1..], r)
    else [list[0]] + Without(list[1..], r)
  }

  /** Filtering a concatenation filters each part in turn, so the remaining
      entries keep their relative order. */
  lemma {:induction false} WithoutAppend(a: seq<string>, b: seq<string>, r: string)
    ensures Without(a + b, r) == Without(a, r) + Without(b, r)
  {
    if a != [] {
      var ab := a + b;
      assert ab[0] == a[0] && ab[1..] == a[1..] + b;
      WithoutAppend(a[1..], b, r);
    } else {
      assert a + b == b;
    }
  }

  /** Filtering out a roll number that is not listed changes nothing. */
  lemma {:induction false} WithoutAbsent(list: seq<string>, r: string)
    requires r !in list
    ensures Without(list, r) == list
  {
    if list != [] {
      assert r !in list[1..];
      WithoutAbsent(list[1..], r);
    }
  }

  /** Removing the key of `r` from the keys and then listing gives the old
      list with `r` filtered out: the screen's list and the store agree after
      a removal. */
  lemma {:induction false} RemovalMatchesListing(keys: seq<string>, r: string)
    ensures RollNumbersOf(Without(keys, RollKey(r))) == Without(RollNumbersOf(keys), r)
  {
    if keys != [] {
      var k, rest := keys[0], keys[1..];
      var key := RollKey(r);
      RemovalMatchesListing(rest, r);
      RollNumberOfKey(k, r);
      assert RollNumbersOf(keys) == RollNumberOf(k) + RollNumbersOf(rest);
      if k == key {
        assert RollNumberOf(k) == [r] by { StripRollKey(r); }
        assert Without(keys, key) == Without(rest, key);
      } else {
        var kept := Without(rest, key);
        assert Without(keys, key) == [k] + kept;
        assert ([k] + kept)[1..] == kept;
        assert RollNumbersOf([k] + kept) == RollNumberOf(k) + RollNumbersOf(kept);
        WithoutAppend(RollNumberOf(k), RollNumbersOf(rest), r);
        WithoutAbsent(RollNumberOf(k), r);
      }
    }
  }

  /** The screen's state: the listed roll numbers and the one whose details
      are open (`null` while the list is shown). */
  class ResultsScreen {
    var rollNumbers: seq<string>
    var selected: Option<string>

    /** Mounting: an empty list and nothing selected. */
    constructor ()
      ensures rollNumbers == [] && selected == None
    {
      rollNumbers := [];
      selected := None;
    }

    /** `fetchRollNumbers`: `keys` is the order in which `getAllKeys`
        returns the store's keys. A read that throws (`fails`) leaves the
        list as it was; otherwise the list is rebuilt from the keys. */
    method FetchRollNumbers(store: Store, keys: seq<string>, fails: bool)
      requires forall k :: k in keys <==> k in store.items
      modifies this`rollNumbers
      ensures fails ==> rollNumbers == old(rollNumbers)
      ensures !fails ==> rollNumbers == RollNumbersOf(keys)
      ensures !fails ==> forall x :: x in rollNumbers <==> RollKey(x) in store.items
    {
      if !fails {
        var rollNumberKeys := RollNumbersOf(keys);
        rollNumbers := rollNumberKeys;
        forall x ensures x in rollNumbers <==> RollKey(x) in store.items {
          ListedIffStored(keys, x);
        }
      }
    }

    /** `removeRollNumber`: delete the roll number's key, drop it from the
        list and go back to the list. A removal that throws (`fails`)
        changes nothing. */
    method RemoveRollNumber(store: Store, r: string, fails: bool)
      modifies store, this`rollNumbers, this`selected
      ensures fails ==> store.items == old(store.items) && rollNumbers == old(rollNumbers) && selected == old(selected)
      ensures !fails ==> store.items == old(store.items) - {RollKey(r)}
      ensures !fails ==> rollNumbers == Without(old(rollNumbers), r) && r !in rollNumbers
      ensures !fails ==> selected == None
    {
      if !fails {
        store.items := store.items - {RollKey(r)};
        rollNumbers := Without(rollNumbers, r);
        selected := None;
      }
    }

    /** Tapping a roll number in the list. */
    method Select(r: string)
      modifies this`selected
      ensures selected == Some(r)
    {
      selected := Some(r);
    }

    /** "Back to Roll Numbers". */
    method Back()
      modifies this`selected
      ensures selected == None
    {
      selected := None;
    }

    /** The details of the selected roll number are shown (and the header is
        hidden) when the selection is truthy: set and not the empty string. */
    predicate ShowsDetails()
      reads this
    {
      selected.Some? && selected.value != ""
    }
  }
}
