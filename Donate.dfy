/** The donation page: choosing a preset or typing a custom amount, the
    donor's details, and the checks `handleDonate` makes before it builds
    the payment request. */
module Donate {
  import opened Lists
  import opened Text

  /** The preset buttons, in rupees. */
  const Presets: seq<int> := [100, 500, 1000, 2000, 5000]

  /** The user id sent when nobody is logged in. */
  const GuestDonor: string := "GUEST_DONOR"

  datatype DonorInfo = DonorInfo(name: string, course: string, college: string)

  /** The `id` of the input that changed. */
  datatype InfoField = Name | Course | College

  /** The body posted to the payment server. */
  datatype Payload = Payload(amount: int, name: string, course: string, college: string, userId: string)

  /** What pressing "Donate" leads to: one of the two warnings, or a request. */
  datatype Decision = InvalidAmount | NameRequired | Submit(payload: Payload)

  /** `value.replace(/[^0-9]/g, "")`: the digit characters of the input, in order. */
  function KeepDigits(value: string): (r: string)
    ensures AllDigits(r)
    ensures |r| <= |value|
  {
    Filter(value, IsDigit)
  }

  /** Only digits are kept, every digit is kept, and digits-only input is left as it is. */
  lemma KeepDigitsExactly(value: string, c: char)
    ensures c in KeepDigits(value) <==> c in value && IsDigit(c)
    ensures AllDigits(value) ==> KeepDigits(value) == value
    ensures KeepDigits(KeepDigits(value)) == KeepDigits(value)
  {
    FilterMembership(value, IsDigit, c);
    if AllDigits(value) {
      FilterAll(value, IsDigit);
    }
    FilterIdempotent(value, IsDigit);
  }

  /** `selectedAmount !== null ? selectedAmount : parseInt(customAmount, 10) || 0`. */
  function FinalAmount(selected: Option<int>, custom: string): (amount: int)
    ensures selected.Some? ==> amount == selected.value
  {
    match selected
    case Some(a) => a
    case None =>
      match ParseInt(custom)
      case Some(n) => n
      case None => 0
  }

  /** Without a preset, the amount is the number the typed digits denote,
      and 0 when nothing is typed. */
  lemma FinalAmountOfDigits(custom: string)
    requires AllDigits(custom)
    ensures FinalAmount(None, custom) == DigitsValue(custom)
    ensures custom == [] ==> FinalAmount(None, custom) == 0
  {
    if custom != [] {
      ParseIntOfDigits(custom);
    }
  }

  /** `user?.id || "GUEST_DONOR"`. */
  function DonorId(userId: Option<string>): (id: string)
    ensures Truthy(userId) ==> id == userId.value
    ensures !Truthy(userId) ==> id == GuestDonor
    ensures id != []
  {
    if Truthy(userId) then userId.value else GuestDonor
  }

  /** The checks of `handleDonate`, amount first and name second, then the payload. */
  function Decide(selected: Option<int>, custom: string, info: DonorInfo, userId: Option<string>): (d: Decision)
    ensures d == InvalidAmount <==> FinalAmount(selected, custom) <= 0
    ensures d == NameRequired <==> FinalAmount(selected, custom) > 0 && Trim(info.name) == []
    ensures d.Submit? ==>
              && d.payload.amount == FinalAmount(selected, custom) > 0
              && Trim(info.name) != []
              && d.payload.name == info.name && d.payload.course == info.course
              && d.payload.college == info.college
              && d.payload.userId == DonorId(userId)
  {
    var amount := FinalAmount(selected, custom);
    if amount <= 0 then InvalidAmount
    else if Trim(info.name) == [] then NameRequired
    else Submit(Payload(amount, info.name, info.course, info.college, DonorId(userId)))
  }

  /** The amount fields the handlers keep: the custom amount holds digits
      only, and at most one of preset and custom amount is set, the preset
      being one of the buttons. */
  predicate AmountsConsistent(selected: Option<int>, custom: string) {
    && AllDigits(custom)
    && (selected.Some? ==> custom == [] && selected.value in Presets)
  }

  /** With the amounts consistent, the request is refused for its amount
      exactly when no preset is chosen and the typed digits denote zero
      (nothing typed, or only zeros); a preset is always accepted. */
  lemma AmountRejectedIff(selected: Option<int>, custom: string)
    requires AmountsConsistent(selected, custom)
    ensures FinalAmount(selected, custom) <= 0 <==> selected.None? && DigitsValue(custom) == 0
    ensures selected.Some? ==> FinalAmount(selected, custom) >= 100
  {
    if selected.None? {
      FinalAmountOfDigits(custom);
    }
  }

  /** A blank name is reported only once the amount is acceptable: an
      invalid amount wins, whatever the name. */
  lemma AmountCheckedFirst(selected: Option<int>, custom: string, info: DonorInfo, userId: Option<string>)
    requires FinalAmount(selected, custom) <= 0
    ensures forall name :: Decide(selected, custom, info.(name := name), userId) == InvalidAmount
  {
  }

  class DonateForm {
    var selectedAmount: Option<int>
    var customAmount: string
    var donorInfo: DonorInfo

    ghost predicate Valid()
      reads this
    {
      AmountsConsistent(selectedAmount, customAmount)
    }

    /** The page opens with nothing chosen and empty fields. */
    constructor()
      ensures selectedAmount == None && customAmount == [] && donorInfo == DonorInfo([], [], [])
      ensures Valid()
    {
      selectedAmount := None;
      customAmount := [];
      donorInfo := DonorInfo([], [], []);
    }

    /** `handleAmountClick`: choose a preset and clear the custom amount. */
    method AmountClick(amount: int)
      modifies this
      ensures selectedAmount == Some(amount) && customAmount == [] && donorInfo == old(donorInfo)
      ensures old(Valid()) && amount in Presets ==> Valid()
    {
      selectedAmount := Some(amount);
      customAmount := [];
    }

    /** `handleCustomAmountChange`: keep the digits typed and clear the preset. */
    method CustomAmountChange(value: string)
      modifies this
      ensures customAmount == KeepDigits(value) && selectedAmount == None && donorInfo == old(donorInfo)
      ensures Valid()
    {
      customAmount := KeepDigits(value);
      selectedAmount := None;
    }

    /** `handleInfoChange`: only the field named by the input's id changes. */
    method InfoChange(field: InfoField, value: string)
      modifies this
      ensures selectedAmount == old(selectedAmount) && customAmount == old(customAmount)
      ensures donorInfo == match field
                           case Name => old(donorInfo).(name := value)
                           case Course => old(donorInfo).(course := value)
                           case College => old(donorInfo).(college := value)
      ensures old(Valid()) ==> Valid()
    {
      match field
      case Name => donorInfo := donorInfo.(name := value);
      case Course => donorInfo := donorInfo.(course := value);
      case College => donorInfo := donorInfo.(college := value);
    }

    /** `handleDonate` up to the network request: the decision for the current fields. */
    method Donate(userId: Option<string>) returns (d: Decision)
      ensures d == Decide(selectedAmount, customAmount, donorInfo, userId)
      ensures Valid() && d.Submit? ==> selectedAmount.Some? || DigitsValue(customAmount) > 0
    {
      d := Decide(selectedAmount, customAmount, donorInfo, userId);
      if Valid() {
        AmountRejectedIff(selectedAmount, customAmount);
      }
    }
  }
}
