/** The address book: records keyed by the value of their name. */
module Books {
  import opened Wrappers
  import opened Fields
  import opened Records

  class AddressBook {
    var data: map<string, Record>

    /** Every key is the name of the record stored under it. */
    ghost predicate Valid()
      reads this
    {
      forall n :: n in data ==> data[n].name.value == n
    }

    /** AddressBook(): no records. */
    constructor ()
      ensures data == map[]
      ensures Valid()
    {
      data := map[];
    }

    /** add_record: store record under its name, replacing whatever was there; other keys keep their records. */
    method AddRecord(record: Record)
      requires Valid()
      modifies this
      ensures Valid()
      ensures data == old(data)[record.name.value := record]
      ensures Find(record.name.value) == Some(record)
    {
      data := data[record.name.value := record];
    }

    /** find: the record stored under name, or None when name is not a key. */
    function Find(name: string): (r: Option<Record>)
      requires Valid()
      reads this
      ensures r.None? <==> name !in data
      ensures r.Some? ==> r.value == data[name] && r.value.name.value == name
    {
      if name in data then Some(data[name]) else None
    }

    /** delete: name is no longer a key, every other key keeps its record; deleting an absent name changes nothing. */
    method Delete(name: string)
      requires Valid()
      modifies this
      ensures Valid()
      ensures data == old(data) - {name}
      ensures name !in old(data) ==> data == old(data)
      ensures Find(name) == None
    {
      if name in data {
        data := data - {name};
      }
    }
  }

  /** The text form of every record in the book, by key (the order of enumeration is not modelled). */
  function Listing(book: AddressBook): (r: map<string, string>)
    reads book, book.data.Values
    ensures r.Keys == book.data.Keys
    ensures book.Valid() ==> forall n :: n in r ==> r[n] == Render(n, book.data[n].phones)
  {
    map n | n in book.data :: book.data[n].ToString()
  }

  /** John's text before the edit, as the sample session prints it. */
  lemma JohnTextBefore()
    ensures Render("John", [Phone("1234567890"), Phone("5555555555")])
              == "Contact name: John, phones: 1234567890; 5555555555"
  {
  }

  /** John's text after his first phone is edited. */
  lemma JohnTextAfter()
    ensures Render("John", [Phone("1112223333"), Phone("5555555555")])
              == "Contact name: John, phones: 1112223333; 5555555555"
  {
  }

  /** Jane's text. */
  lemma JaneText()
    ensures Render("Jane", [Phone("9876543210")]) == "Contact name: Jane, phones: 9876543210"
  {
  }

  /** The listing the sample session prints before the edit. */
  lemma ListingBefore(book: AddressBook, johnRecord: Record, janeRecord: Record)
    requires book.data == map["John" := johnRecord, "Jane" := janeRecord]
    requires johnRecord.name == Name("John") && johnRecord.phones == [Phone("1234567890"), Phone("5555555555")]
    requires janeRecord.name == Name("Jane") && janeRecord.phones == [Phone("9876543210")]
    ensures Listing(book) == map["John" := "Contact name: John, phones: 1234567890; 5555555555",
                                 "Jane" := "Contact name: Jane, phones: 9876543210"]
  {
    JohnTextBefore();
    JaneText();
    assert Listing(book).Keys == {"John", "Jane"};
  }

  /** A book holding one record lists that record's text alone. */
  lemma ListingOne(book: AddressBook, record: Record)
    requires book.data == map[record.name.value := record]
    ensures Listing(book) == map[record.name.value := record.ToString()]
  {
  }

  /** The first half of the sample session: John with two phones and Jane with one, both in a new book. */
  method Populate() returns (book: AddressBook, johnRecord: Record, janeRecord: Record)
    ensures fresh(book) && fresh(johnRecord) && fresh(janeRecord)
    ensures book.Valid() && johnRecord.Valid() && janeRecord.Valid()
    ensures book.data == map["John" := johnRecord, "Jane" := janeRecord]
    ensures johnRecord.name == Name("John") && johnRecord.phones == [Phone("1234567890"), Phone("5555555555")]
    ensures janeRecord.name == Name("Jane") && janeRecord.phones == [Phone("9876543210")]
    ensures Listing(book) == map["John" := "Contact name: John, phones: 1234567890; 5555555555",
                                 "Jane" := "Contact name: Jane, phones: 9876543210"]
  {
    book := new AddressBook();

    johnRecord := new Record("John");
    var _ := johnRecord.AddPhone("1234567890");
    var _ := johnRecord.AddPhone("5555555555");
    book.AddRecord(johnRecord);

    janeRecord := new Record("Jane");
    var _ := janeRecord.AddPhone("9876543210");
    book.AddRecord(janeRecord);
    ListingBefore(book, johnRecord, janeRecord);
  }

  /** The middle of the sample session: John's first phone is edited, then his second is looked up. */
  method EditAndFind(johnRecord: Record) returns (john: string, found: Option<Phone>)
    requires johnRecord.Valid()
    requires johnRecord.name == Name("John") && johnRecord.phones == [Phone("1234567890"), Phone("5555555555")]
    modifies johnRecord
    ensures johnRecord.Valid()
    ensures johnRecord.phones == [Phone("1112223333"), Phone("5555555555")]
    ensures john == johnRecord.ToString() == "Contact name: John, phones: 1112223333; 5555555555"
    ensures found == Some(Phone("5555555555"))
  {
    assert IndexOf(johnRecord.phones, "1234567890") == Some(0);
    var _ := johnRecord.EditPhone("1234567890", "1112223333");
    JohnTextAfter();
    john := johnRecord.ToString();
    assert IndexOf(johnRecord.phones, "5555555555") == Some(1);
    found := johnRecord.FindPhone("5555555555");
  }

  /**
   * The sample session: John with two phones, Jane with one; John's first phone is edited,
   * his second is found, and Jane is deleted. Returns what the session prints.
   */
  method Demo() returns (before: map<string, string>, john: string, found: Option<Phone>, after: map<string, string>)
    ensures before == map["John" := "Contact name: John, phones: 1234567890; 5555555555",
                          "Jane" := "Contact name: Jane, phones: 9876543210"]
    ensures john == "Contact name: John, phones: 1112223333; 5555555555"
    ensures found == Some(Phone("5555555555"))
    ensures after == map["John" := john]
  {
    var book, johnRecord, janeRecord := Populate();
    before := Listing(book);

    var johnFound := book.Find("John");
    john, found := EditAndFind(johnFound.value);

    book.Delete("Jane");
    assert book.data == map["John" := johnRecord];
    ListingOne(book, johnRecord);
    after := Listing(book);
  }

  /**
   * The error paths on a record holding John's two phones: adding "abc" fails, editing an absent
   * number answers false, editing to "abc" fails, a lookup misses, removing an absent number does nothing.
   * The phones after each call are returned: every one of them is the original two.
   */
  method ErrorPaths()
    returns (added: Outcome<PhoneValidationError>, afterAdd: seq<Phone>,
             missing: Result<bool, PhoneValidationError>, afterMissing: seq<Phone>,
             invalid: Result<bool, PhoneValidationError>, afterInvalid: seq<Phone>,
             lookup: Option<Phone>, afterLookup: seq<Phone>,
             phones: seq<Phone>)
    ensures added == Fail(PhoneValidationError) && afterAdd == [Phone("1234567890"), Phone("5555555555")]
    ensures missing == Success(false) && afterMissing == afterAdd
    ensures invalid == Failure(PhoneValidationError) && afterInvalid == afterAdd
    ensures lookup == None && afterLookup == afterAdd
    ensures phones == afterAdd
  {
    var record := new Record("John");
    var _ := record.AddPhone("1234567890");
    var _ := record.AddPhone("5555555555");
    assert record.phones == [Phone("1234567890"), Phone("5555555555")];

    assert !IsValidPhone("abc");
    added := record.AddPhone("abc");
    assert added.Fail? && added.error.PhoneValidationError?;
    afterAdd := record.phones;
    assert IndexOf(record.phones, "0000000000") == None;
    missing := record.EditPhone("0000000000", "1112223333");
    afterMissing := record.phones;
    assert IndexOf(record.phones, "1234567890") == Some(0);
    invalid := record.EditPhone("1234567890", "abc");
    afterInvalid := record.phones;
    lookup := record.FindPhone("0000000000");
    afterLookup := record.phones;
    WithoutUnchangedIff(record.phones, "0000000000");
    record.RemovePhone("0000000000");
    phones := record.phones;
  }
}
