/** The label repository the goto rules talk to, reduced to the state the
    interpreter reads: the labels found so far (as a set and in discovery
    order), how many loop listeners are attached, and the log of notifications
    it has published. A subscriber that listens while one statement compiles
    sees exactly the slice of the log appended meanwhile. */
module Labels {
  import opened Errors

  datatype LabelEvent = Pending(labelName: string) | Found(labelName: string)

  datatype LabelRepository = LabelRepository(
    found: set<string>,
    order: seq<string>,
    loopListeners: nat,
    events: seq<LabelEvent>)
  {
    /** The found set and the discovery order list the same labels, once each. */
    ghost predicate Valid() {
      (forall l :: l in found <==> l in order)
      && (forall a, b :: 0 <= a < b < |order| ==> order[a] != order[b])
    }
  }

  function EmptyRepository(): (r: LabelRepository)
    ensures r.Valid() && r.found == {} && r.loopListeners == 0
  {
    LabelRepository({}, [], 0, [])
  }

  /** `addPending`: a goto refers to `labelName`; subscribers are told. */
  function AddPending(r: LabelRepository, labelName: string): (r': LabelRepository)
    ensures r'.found == r.found && r'.order == r.order && r'.loopListeners == r.loopListeners
    ensures r'.events == r.events + [Pending(labelName)]
    ensures r.Valid() ==> r'.Valid()
  {
    r.(events := r.events + [Pending(labelName)])
  }

  /** `found`: the label is defined here. A loop listener still attached turns
      the notification into the fatal "goto into loop" error. */
  function MarkFound(r: LabelRepository, labelName: string): (result: Result<LabelRepository>)
    ensures result.Fail? <==> r.loopListeners > 0
    ensures result.Fail? ==> result.error == GotoDisallowed
    ensures result.Ok? ==>
              && result.value.found == r.found + {labelName}
              && result.value.loopListeners == r.loopListeners
              && result.value.events == r.events + [Found(labelName)]
    ensures result.Ok? && r.Valid() ==> result.value.Valid()
  {
    if r.loopListeners > 0 then Fail(GotoDisallowed)
    else
      Ok(LabelRepository(
        r.found + {labelName},
        if labelName in r.found then r.order else r.order + [labelName],
        r.loopListeners,
        r.events + [Found(labelName)]))
  }

  /** A `while` rule subscribes a listener that rejects any later label. */
  function AddLoopListener(r: LabelRepository): (r': LabelRepository)
    ensures r'.loopListeners == r.loopListeners + 1
    ensures r'.found == r.found && r'.order == r.order && r'.events == r.events
  {
    r.(loopListeners := r.loopListeners + 1)
  }

  predicate HasBeenFound(r: LabelRepository, labelName: string) {
    labelName in r.found
  }

  /** `getLabels`: every label found, in discovery order. */
  function GetLabels(r: LabelRepository): (labels: seq<string>)
    ensures r.Valid() ==> forall l :: l in labels <==> HasBeenFound(r, l)
    ensures r.Valid() ==> forall a, b :: 0 <= a < b < |labels| ==> labels[a] != labels[b]
  {
    r.order
  }

  /** Appending a key to a JavaScript object used as a set: its position is
      that of its first insertion. */
  function AddKey(keys: seq<string>, key: string): (r: seq<string>)
    ensures forall l :: l in r <==> l in keys || l == key
  {
    if key in keys then keys else keys + [key]
  }

  /** The gotos a statement's subscriber records from a slice of the log:
      the labels of the pending notifications, first occurrence first. */
  function PendingLabels(events: seq<LabelEvent>): (r: seq<string>)
    ensures forall l :: l in r <==> Pending(l) in events
    ensures forall a, b :: 0 <= a < b < |r| ==> r[a] != r[b]
    decreases |events|
  {
    if events == [] then []
    else
      var init := events[..|events| - 1];
      assert events == init + [events[|events| - 1]];
      var keys := PendingLabels(init);
      match events[|events| - 1]
      case Pending(l) => AddKey(keys, l)
      case Found(_) => keys
  }

  /** The labels a statement's subscriber records: the found notifications. */
  function FoundLabels(events: seq<LabelEvent>): (r: seq<string>)
    ensures forall l :: l in r <==> Found(l) in events
    ensures forall a, b :: 0 <= a < b < |r| ==> r[a] != r[b]
    decreases |events|
  {
    if events == [] then []
    else
      var init := events[..|events| - 1];
      assert events == init + [events[|events| - 1]];
      var keys := FoundLabels(init);
      match events[|events| - 1]
      case Found(l) => AddKey(keys, l)
      case Pending(_) => keys
  }
}
