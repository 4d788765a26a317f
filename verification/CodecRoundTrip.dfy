/** Marshal, a new message, Unmarshal and Equal, on the objects themselves. */
module CodecRoundTrip {
  import opened Wrappers
  import opened Varint
  import opened Messages
  import opened ListTree
  import opened ListOptions
  import opened ValidationCodec
  import opened ValidationRoundTrip

  /** A CriterionOperation survives the wire: the decoder accepts, and what it builds is Equal to the original. */
  method OperationSurvives(x: OperationMessage) returns (same: bool)
    requires x.Valid() && |EncOperation(x.value)| < TWO63
    ensures same
  {
    hide Parse, EncOperation;
    MarshalRoundTrip(OperationMsg(x.value));
    var dAtA := x.Marshal();
    var y := new OperationMessage();
    var err := y.Unmarshal(dAtA[..]);
    if err.Some? { return false; }
    same := x.Equal(y);
  }

  method ListOptionsSurvives(x: ListOptionsMessage) returns (same: bool)
    requires x.Valid() && |EncListOptions(x.value)| < TWO63
    ensures same
  {
    hide Parse, EncListOptions;
    MarshalRoundTrip(ListOptionsMsg(x.value));
    var dAtA := x.Marshal();
    var y := new ListOptionsMessage();
    var err := y.Unmarshal(dAtA[..]);
    if err.Some? { return false; }
    same := x.Equal(y);
  }

  /** Also when pointers of the original share nodes: the copy is a tree of new ones. */
  method ValidationSurvives(x: ValidationMessage) returns (same: bool)
    requires x.Valid(false) && |EncValidation(x.value)| < TWO63
    ensures same
  {
    hide Parse, EncValidation, ValidationMessage.Valid;
    MarshalRoundTrip(ValidationMsg(x.value));
    var dAtA := x.Marshal();
    var y := new ValidationMessage();
    var err := y.Unmarshal(dAtA[..]);
    if err.Some? { return false; }
    y.TreeIsValid();
    same := x.Equal(y);
  }
}
