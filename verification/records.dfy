/** A contact record: one name and an ordered list of phones, duplicates allowed. */
module Records {
  import opened Wrappers
  import opened Fields

  /** Every phone in the list satisfies the phone rule. */
  predicate AllValid(phones: seq<Phone>) {
    forall i :: 0 <= i < |phones| ==> IsValidPhone(phones[i].value)
  }

  /** The index of the first phone whose value is v, scanning in list order; None when there is none. */
  function IndexOf(phones: seq<Phone>, v: string): (r: Option<nat>)
    ensures r.None? <==> forall i :: 0 <= i < |phones| ==> phones[i].value != v
    ensures r.Some? ==> r.value < |phones| && phones[r.value].value == v
    ensures r.Some? ==> forall i :: 0 <= i < r.value ==> phones[i].value != v
  {
    if |phones| == 0 then None
    else if phones[0].value == v then Some(0)
    else match IndexOf(phones[1..], v)
      case None => None
      case Some(k) => Some(k + 1)
  }

  /** The phones whose value differs from v, in their original order (remove_phone's comprehension). */
  function Without(phones: seq<Phone>, v: string): seq<Phone> {
    if |phones| == 0 then []
    else if phones[0].value == v then Without(phones[1..], v)
    else [phones[0]] + Without(phones[1..], v)
  }

  /** Filtering distributes over concatenation: the order of the kept phones is the original order. */
  lemma {:induction false} WithoutAppend(a: seq<Phone>, b: seq<Phone>, v: string)
    ensures Without(a + b, v) == Without(a, v) + Without(b, v)
  {
    if |a| > 0 {
      assert (a + b)[1..] == a[1..] + b;
      WithoutAppend(a[1..], b, v);
    } else {
      assert a + b == b;
    }
  }

  /** Each phone with value v is dropped entirely; every other phone is kept as many times as it occurred. */
  lemma {:induction false} WithoutCounts(phones: seq<Phone>, v: string)
    ensures forall p :: multiset(Without(phones, v))[p] == if p.value == v then 0 else multiset(phones)[p]
  {
    if |phones| > 0 {
      WithoutCounts(phones[1..], v);
      assert phones == [phones[0]] + phones[1..];
      assert multiset(phones) == multiset{phones[0]} + multiset(phones[1..]);
    }
  }

  /** A phone is in the filtered list exactly when it was in the list and its value is not v. */
  lemma {:induction false} WithoutMembers(phones: seq<Phone>, v: string)
    ensures forall p :: p in Without(phones, v) <==> p in phones && p.value != v
  {
    WithoutCounts(phones, v);
    forall p ensures p in Without(phones, v) <==> p in phones && p.value != v {
      assert p in Without(phones, v) <==> multiset(Without(phones, v))[p] > 0;
      assert p in phones <==> multiset(phones)[p] > 0;
    }
  }

  /** Filtering changes the list exactly when some phone has value v; removing an absent value is a no-op. */
  lemma {:induction false} WithoutUnchangedIff(phones: seq<Phone>, v: string)
    ensures Without(phones, v) == phones <==> IndexOf(phones, v).None?
    ensures IndexOf(phones, v).Some? ==> |Without(phones, v)| < |phones|
  {
    if |phones| > 0 {
      WithoutUnchangedIff(phones[1..], v);
      WithoutLength(phones[1..], v);
      if phones[0].value != v {
        assert phones == [phones[0]] + phones[1..];
      }
    }
  }

  /** The filtered list is never longer than the list. */
  lemma {:induction false} WithoutLength(phones: seq<Phone>, v: string)
    ensures |Without(phones, v)| <= |phones|
  {
    if |phones| > 0 {
      WithoutLength(phones[1..], v);
    }
  }

  /** Removing the same value twice is the same as removing it once. */
  lemma {:induction false} WithoutIdempotent(phones: seq<Phone>, v: string)
    ensures Without(Without(phones, v), v) == Without(phones, v)
  {
    WithoutMembers(phones, v);
    WithoutUnchangedIff(Without(phones, v), v);
  }

  /** The separator a record's text form puts between two phone values. */
  const Separator := "; "

  /** The phone values joined by Separator, in list order; empty for no phones. */
  function PhonesText(phones: seq<Phone>): string {
    if |phones| == 0 then ""
    else if |phones| == 1 then phones[0].value
    else phones[0].value + Separator + PhonesText(phones[1..])
  }

  /** The text form of a record with the given name value and phones. */
  function Render(name: string, phones: seq<Phone>): string {
    "Contact name: " + name + ", phones: " + PhonesText(phones)
  }

  /** Appending a phone appends its value to the rendering, after a separator unless it is the first. */
  lemma {:induction false} PhonesTextAppend(phones: seq<Phone>, p: Phone)
    ensures PhonesText(phones + [p]) == PhonesText(phones) + (if phones == [] then "" else Separator) + p.value
  {
    if |phones| == 1 {
      assert phones + [p] == [phones[0], p];
    } else if |phones| > 1 {
      assert (phones + [p])[1..] == phones[1..] + [p];
      PhonesTextAppend(phones[1..], p);
    }
  }

  /** The rendering of a record with no phones ends right after "phones: ". */
  lemma RenderEmpty(name: string)
    ensures Render(name, []) == "Contact name: " + name + ", phones: "
  {
  }

  /** What add_phone does to the rendering: one more value at the end. */
  lemma RenderAppend(name: string, phones: seq<Phone>, p: Phone)
    ensures Render(name, phones + [p]) == Render(name, phones) + (if phones == [] then "" else Separator) + p.value
  {
    PhonesTextAppend(phones, p);
  }

  /** With valid phones every value takes ten characters and every separator two: phone k sits at offset 12 * k. */
  lemma {:induction false} PhonesTextLayout(phones: seq<Phone>)
    requires AllValid(phones)
    ensures |PhonesText(phones)| == if phones == [] then 0 else 12 * |phones| - 2
    ensures forall k :: 0 <= k < |phones| ==> PhonesText(phones)[12 * k .. 12 * k + 10] == phones[k].value
  {
    if |phones| > 1 {
      var rest := phones[1..];
      PhonesTextLayout(rest);
      var t := PhonesText(phones);
      var head := phones[0].value + Separator;
      assert t == head + PhonesText(rest);
      assert |head| == 12;
      forall k | 0 <= k < |phones|
        ensures t[12 * k .. 12 * k + 10] == phones[k].value
      {
        if k > 0 {
          assert t[12 * k .. 12 * k + 10] == PhonesText(rest)[12 * (k - 1) .. 12 * (k - 1) + 10];
          assert rest[k - 1] == phones[k];
        }
      }
    }
  }

  /** For valid phones the rendering loses nothing: a record's text determines its phone list. */
  lemma RenderInjective(name: string, phones: seq<Phone>, others: seq<Phone>)
    requires AllValid(phones) && AllValid(others)
    requires Render(name, phones) == Render(name, others)
    ensures phones == others
  {
    var prefix := "Contact name: " + name + ", phones: ";
    assert Render(name, phones) == prefix + PhonesText(phones);
    assert Render(name, others) == prefix + PhonesText(others);
    assert PhonesText(phones) == Render(name, phones)[|prefix|..];
    assert PhonesText(others) == Render(name, others)[|prefix|..];
    PhonesTextLayout(phones);
    PhonesTextLayout(others);
    assert |phones| == |others|;
    forall k | 0 <= k < |phones| ensures phones[k] == others[k] {
      assert phones[k].value == others[k].value;
    }
  }

  /** A contact: a name set once, and phones changed only through the methods below. */
  class Record {
    const name: Name
    var phones: seq<Phone>

    /** Every stored phone satisfies the phone rule. */
    ghost predicate Valid()
      reads this
    {
      AllValid(phones)
    }

    /** Record(name): the given name and no phones. */
    constructor (name: string)
      ensures this.name == Name(name)
      ensures phones == []
      ensures Valid()
    {
      this.name := Name(name);
      phones := [];
    }

    /** add_phone: validate, then append at the end; an invalid value leaves the phones untouched. */
    method AddPhone(phone: string) returns (r: Outcome<PhoneValidationError>)
      requires Valid()
      modifies this
      ensures Valid()
      ensures r.Pass? <==> IsValidPhone(phone)
      ensures phones == if r.Pass? then old(phones) + [Phone(phone)] else old(phones)
    {
      var made := NewPhone(phone);
      match made
      case Failure(e) =>
        r := Fail(e);
      case Success(p) =>
        phones := phones + [p];
        r := Pass;
    }

    /** remove_phone: keep every phone whose value is not phone, in order; no error when there is none. */
    method RemovePhone(phone: string)
      requires Valid()
      modifies this
      ensures Valid()
      ensures phones == Without(old(phones), phone)
      ensures forall i :: 0 <= i < |phones| ==> phones[i].value != phone
    {
      WithoutMembers(phones, phone);
      phones := Without(phones, phone);
      assert forall i :: 0 <= i < |phones| ==> phones[i] in phones;
    }

    /** edit_phone: find the first phone with value oldValue; only then validate newValue and put it at that index. */
    method EditPhone(oldValue: string, newValue: string) returns (r: Result<bool, PhoneValidationError>)
      requires Valid()
      modifies this
      ensures Valid()
      ensures IndexOf(old(phones), oldValue).None? ==> r == Success(false) && phones == old(phones)
      ensures IndexOf(old(phones), oldValue).Some? && !IsValidPhone(newValue) ==>
                r == Failure(PhoneValidationError) && phones == old(phones)
      ensures IndexOf(old(phones), oldValue).Some? && IsValidPhone(newValue) ==>
                r == Success(true) && phones == old(phones)[IndexOf(old(phones), oldValue).value := Phone(newValue)]
    {
      var i := 0;
      while i < |phones|
        invariant 0 <= i <= |phones|
        invariant phones == old(phones)
        invariant forall j :: 0 <= j < i ==> phones[j].value != oldValue
      {
        if phones[i].value == oldValue {
          var made := NewPhone(newValue);
          match made
          case Failure(e) =>
            return Failure(e);
          case Success(p) =>
            phones := phones[i := p];
            return Success(true);
        }
        i := i + 1;
      }
      return Success(false);
    }

    /** find_phone: the first phone whose value is phone, or None when no phone has it. */
    method FindPhone(phone: string) returns (r: Option<Phone>)
      ensures r.None? <==> forall i :: 0 <= i < |phones| ==> phones[i].value != phone
      ensures r.Some? ==> r.value.value == phone
      ensures IndexOf(phones, phone).Some? ==> r == Some(phones[IndexOf(phones, phone).value])
    {
      var i := 0;
      while i < |phones|
        invariant 0 <= i <= |phones|
        invariant forall j :: 0 <= j < i ==> phones[j].value != phone
      {
        if phones[i].value == phone {
          return Some(phones[i]);
        }
        i := i + 1;
      }
      return None;
    }

    /** str(record): "Contact name: <name>, phones: <p1>; <p2>; ...". */
    function ToString(): string
      reads this
    {
      Render(name.value, phones)
    }
  }
}
