/**
 * The processor chain of recursive_template.rs. `System` passes data through
 * unchanged; `add` wraps the chain built so far as the `next` of a new node that
 * holds the added processor, and a node first runs the chain it wraps and then
 * its own processor. Processors are modelled as functions on the data.
 */
module RecursiveTemplate {
  import opened Wrappers

  /** A chain: the identity `System`, or a node holding a processor and the chain it wraps. */
  datatype Chain<!D> = System | Node(next: Option<Chain<D>>, processor: D -> D)

  /** Chain::add: the added processor becomes the last one to run. */
  function Add<D>(c: Chain<D>, processor: D -> D): (r: Chain<D>)
    ensures Processors(r) == Processors(c) + [processor]
  {
    Node(Some(c), processor)
  }

  /** Chain::process for System and Node. */
  function Process<D>(c: Chain<D>, data: D): D {
    match c
    case System => data
    case Node(next, processor) =>
      var inner := if next.Some? then Process(next.value, data) else data;
      processor(inner)
  }

  /** The processors of a chain in the order they were added. */
  function Processors<D>(c: Chain<D>): seq<D -> D> {
    match c
    case System => []
    case Node(next, processor) => (if next.Some? then Processors(next.value) else []) + [processor]
  }

  /** Runs a sequence of processors from first to last. */
  function ApplyInOrder<D>(ps: seq<D -> D>, data: D): D
    decreases |ps|
  {
    if ps == [] then data else ApplyInOrder(ps[1..], ps[0](data))
  }

  lemma {:induction false} ApplyInOrderAppend<D>(ps: seq<D -> D>, p: D -> D, data: D)
    ensures ApplyInOrder(ps + [p], data) == p(ApplyInOrder(ps, data))
    decreases |ps|
  {
    if ps != [] {
      assert (ps + [p])[1..] == ps[1..] + [p];
      ApplyInOrderAppend(ps[1..], p, ps[0](data));
    }
  }

  /** Processing runs the processors in insertion order; System alone is the identity. */
  lemma {:induction false} ProcessAppliesInOrder<D>(c: Chain<D>, data: D)
    ensures Process(c, data) == ApplyInOrder(Processors(c), data)
  {
    match c
    case System =>
    case Node(next, processor) =>
      if next.Some? {
        ProcessAppliesInOrder(next.value, data);
        ApplyInOrderAppend(Processors(next.value), processor, data);
      } else {
        assert Processors(c) == [processor];
      }
  }

  /** PhysicsProcessor, AiProcessor and RenderProcessor of the source's test. */
  function Physics(data: string): string { data + " => physics!" }

  function Thinking(data: string): string { data + " => thinking!" }

  function RenderOn(screen: string, data: string): string {
    data + " => rendering in screen " + screen + "!"
  }

  function Render(screen: string): string -> string {
    data => RenderOn(screen, data)
  }

  /** A node added to a chain runs the chain first and then its own processor. */
  lemma ProcessAdded<D>(c: Chain<D>, p: D -> D, data: D)
    ensures Process(Add(c, p), data) == p(Process(c, data))
  {
  }

  /** The expectation of the source's test create_chain. */
  lemma CreateChainExpectation()
    ensures Process(Add(Add(Add(Add(System, Physics), Thinking), Render("1")), Render("2")), "chobis")
         == "chobis => physics! => thinking! => rendering in screen 1! => rendering in screen 2!"
  {
    var c1 := Add(System, Physics);
    var c2 := Add(c1, Thinking);
    var c3 := Add(c2, Render("1"));
    ProcessAdded(System, Physics, "chobis");
    ProcessAdded(c1, Thinking, "chobis");
    ProcessAdded(c2, Render("1"), "chobis");
    ProcessAdded(c3, Render("2"), "chobis");
    ScreenTestStrings();
  }

  /** The string the test expects, built one processor at a time. */
  lemma ScreenTestStrings()
    ensures RenderOn("2", RenderOn("1", Thinking(Physics("chobis"))))
         == "chobis => physics! => thinking! => rendering in screen 1! => rendering in screen 2!"
  {
    PhysicsStep();
    ThinkingStep("chobis => physics!");
    RenderStep1("chobis => physics! => thinking!");
    RenderStep2("chobis => physics! => thinking! => rendering in screen 1!");
  }

  lemma PhysicsStep()
    ensures Physics("chobis") == "chobis => physics!"
  {
  }

  lemma ThinkingStep(d: string)
    requires d == "chobis => physics!"
    ensures Thinking(d) == "chobis => physics! => thinking!"
  {
  }

  lemma RenderStep1(d: string)
    requires d == "chobis => physics! => thinking!"
    ensures RenderOn("1", d) == "chobis => physics! => thinking! => rendering in screen 1!"
  {
  }

  lemma RenderStep2(d: string)
    requires d == "chobis => physics! => thinking! => rendering in screen 1!"
    ensures RenderOn("2", d) == "chobis => physics! => thinking! => rendering in screen 1! => rendering in screen 2!"
  {
  }
}
