# Address book, modelled in Dafny

A model of a small in-memory address book (`main.py`). A contact record holds a name and an
ordered list of phone numbers; duplicates are allowed. A phone number is accepted only if the
whole text is exactly ten digits. The address book maps a name to the record stored under it.

Files:

- `wrappers.dfy`: `Option`, `Result` and `Outcome`. These stand in for the source's `None` and
  for its raised `PhoneValidationError`.
- `fields.dfy` (module `Fields`): `Name`, `Phone` and the validation rule.
  - The regular expression `\d{10}` under `re.fullmatch` becomes `FullMatchDigits`, a matcher
    that consumes one digit at a time and must reach the end of the text.
  - `FullMatchDigitsIff` proves that this matcher agrees with the rule stated directly
    (`IsValidPhone`: length 10, every character a digit).
  - `NewPhone` is the `Phone` constructor. It returns a `Phone` or the error, never a phone that
    failed validation.
- `records.dfy` (module `Records`): the record. It has specification functions on values and the
  class `Record`, whose `phones: seq<Phone>` field is changed in place by its methods.
  - `IndexOf` is the first-match scan.
  - `Without` is the order-preserving filter of `remove_phone`.
  - `PhonesText` and `Render` give the text form.
  - The object invariant `Record.Valid()` says every stored phone satisfies the rule. Every
    method keeps it.
- `books.dfy` (module `Books`): the class `AddressBook`, whose `data: map<string, Record>` field
  is changed by `AddRecord` and `Delete`.
  - Its invariant says every key equals the name of the record stored under it.
  - `Demo` and `ErrorPaths` are client methods that replay the sample session at the bottom of
    `main.py` and the error cases. Their postconditions state the exact texts and results.

Modelling decisions:

- A raised `PhoneValidationError` becomes a `Failure`/`Fail` result. The state is then left
  exactly as it was, which is what the exception does in the source, because it is raised before
  any assignment.
- `edit_phone` validates the new value only after it has found a match (`main.py:49-50`). So an
  edit whose old value is absent answers `false` even if the new value is invalid.
  `Record.EditPhone` keeps this order.
- `Phone` and `Name` are values (datatypes). The source never mutates a `Phone`; an edit stores a
  new one. So object identity of phones cannot be observed and is not modelled.
- The record's name is a `const`. The source sets it once in the constructor and never assigns
  it again.
- `AddressBook.Find` requires the book's invariant, which every constructor and method
  establishes.

## Model

| member | source | states |
|---|---|---|
| `Fields.FullMatchDigitsIff` | main.py:27 | the whole text matches `\d{n}` exactly when it has length n and every character is a digit |
| `Fields.Validate` | main.py:26-28 | validation passes exactly on ten-digit text; otherwise it reports `PhoneValidationError` |
| `Fields.NewPhone` | main.py:22-24 | constructing a phone succeeds exactly on ten-digit text, and the phone then holds that text unchanged; otherwise the error and no phone |
| `Fields.ValidationExamples` | main.py:27 | ten digits are accepted; "abc", the empty text, nine digits, eleven digits and text with a dash are rejected |
| `Records.IndexOf` | main.py:48-49 | the result is the lowest index whose phone has the value; nothing before it matches; none exactly when no phone has the value |
| `Records.WithoutAppend` | main.py:44 | the comprehension filter distributes over concatenation, so the kept phones stay in their original order |
| `Records.WithoutCounts` | main.py:44 | after removal no phone with the value is left; every other phone occurs as many times as before |
| `Records.WithoutMembers` | main.py:44 | a phone is in the result exactly when it was in the list and its value differs |
| `Records.WithoutUnchangedIff` | main.py:43-44 | the filter leaves the list unchanged exactly when no phone has the value; otherwise the list gets shorter |
| `Records.WithoutLength` | main.py:44 | the filtered list is never longer than the original |
| `Records.WithoutIdempotent` | main.py:43-44 | removing a value twice has the same effect as removing it once |
| `Records.PhonesTextAppend` | main.py:62 | joining with "; " after appending a phone gives the old text, a separator unless the list was empty, then the new value |
| `Records.RenderEmpty` | main.py:61-63 | a record without phones renders as "Contact name: <name>, phones: " with an empty phones part |
| `Records.RenderAppend` | main.py:61-63 | appending a phone extends the record's text by "; " (omitted for the first phone) and the phone's value |
| `Records.PhonesTextLayout` | main.py:62 | for valid phones the joined text has length 12n-2 (0 when empty), and phone k occupies characters 12k to 12k+10 |
| `Records.RenderInjective` | main.py:61-63 | for a fixed name and valid phones, the text determines the phone list, so rendering loses nothing |
| `Records.Record.constructor` | main.py:33-35 | a new record has the given name and no phones, and satisfies the phone invariant |
| `Records.Record.AddPhone` | main.py:38-40 | a valid value is appended at the end and earlier entries are untouched; an invalid value fails and leaves the phones unchanged; every phone stays valid |
| `Records.Record.RemovePhone` | main.py:43-44 | the phones become the order-preserving filter of the old list by value; no entry has the value afterwards; removing an absent value is not an error |
| `Records.Record.EditPhone` | main.py:47-52 | no match: false, phones unchanged; match with invalid new value: error, phones unchanged; match with valid new value: true, only the first matching index replaced |
| `Records.Record.FindPhone` | main.py:55-59 | returns the phone at the lowest matching index; returns none exactly when no phone has the value |
| `Books.AddressBook.constructor` | main.py:67 | a new book has no records |
| `Books.AddressBook.AddRecord` | main.py:70-71 | the record is stored under its name, replacing any earlier record there with no merge; all other keys keep their records; finding the name returns it |
| `Books.AddressBook.Find` | main.py:74-75 | returns none exactly when the name is not a key; otherwise returns the record stored under it, whose name is that key |
| `Books.AddressBook.Delete` | main.py:78-80 | the name is no longer a key and every other key keeps its record; deleting an absent name changes nothing |
| `Books.Listing` | main.py:101-102 | the enumerated texts are keyed by exactly the book's names, and the text under each name is the rendering (`Contact name: <name>, phones: ...`) of the record stored under it |
| `Books.JohnTextBefore` | main.py:88-90 | John's record with phones 1234567890 and 5555555555 renders as "Contact name: John, phones: 1234567890; 5555555555" |
| `Books.JohnTextAfter` | main.py:108 | after the edit John's record renders as "Contact name: John, phones: 1112223333; 5555555555" |
| `Books.JaneText` | main.py:96-98 | Jane's record renders as "Contact name: Jane, phones: 9876543210" |
| `Books.ListingBefore` | main.py:100-102 | the first listing shows exactly John's and Jane's texts |
| `Books.ListingOne` | main.py:117-119 | a book holding one record lists exactly that record's text under its name |
| `Books.Populate` | main.py:85-98 | the session's first part yields a book holding exactly John's and Jane's records with their phones |
| `Books.EditAndFind` | main.py:104-112 | editing John's first phone puts 1112223333 at index 0, and looking up 5555555555 finds it |
| `Books.Demo` | main.py:84-119 | the session prints both records, then John's edited text, finds 5555555555, and after Jane's deletion lists John alone |
| `Books.ErrorPaths` | main.py:38-59 | an invalid add fails; an edit of an absent number answers false; an edit to an invalid number fails; a lookup of an absent number finds nothing; removing an absent number does nothing; the phones, captured after each of these calls, are the original two every time |

## Left out

- Unicode digits: Python's `\d` on `str` also matches non-ASCII decimal digits (for example
  Arabic-Indic digits). The model accepts only '0' to '9'. This is an ASCII-digit assumption,
  not a claim of full equivalence with the regular expression.
- Non-string arguments: Python would accept any object as a phone value or a name (`re.fullmatch`
  raises `TypeError` on a non-string). Every argument in the model is a string.
- The exception machinery: raising and propagating `PhoneValidationError` is modelled as a
  returned error value.
- The generic mapping methods `AddressBook` inherits from `UserDict`, and the iteration order of
  `book.data.items()`: `Listing` is a map from name to text, so it carries no order.
- The `print` calls of the sample session. Its printed values are returned as results instead.
- `Field.__str__` and `Name` beyond holding a text value: a field's text is its value.
- Aliasing between the book and its records: a record stored in the book can still be changed
  through another reference (as the sample session does at `main.py:105-106`). For this reason
  the book's invariant covers only the key/name correspondence. Each record keeps its own
  phone invariant.
