/**
  WebDAV dead properties: XML kept as a flat list of tags and edited by counting depth,
  crates/types/src/dead_property.rs. The list stands for a forest, and the operations are the forest's own.
  */
module DeadProperties {
  import opened Prelude

  datatype ElementTag = ElementTag(name: string, attrs: Option<string>)

  datatype Tag = Start(element: ElementTag) | End | Text(text: string)

  /** A list of XML nodes: the first node and the ones after it. */
  datatype Forest =
    | Empty
    | Element(element: ElementTag, children: Forest, next: Forest)
    | Words(text: string, next: Forest)

  function Flatten(f: Forest): seq<Tag> {
    match f
    case Empty => []
    case Element(e, children, next) => [Start(e)] + (Flatten(children) + ([End] + Flatten(next)))
    case Words(text, next) => [Text(text)] + Flatten(next)
  }

  // ----- Balanced lists are forests -----

  /** The depth after `tags`, starting at `depth`; `None` if an end tag has no start. */
  function Depth(tags: seq<Tag>, depth: nat): Option<nat>
    decreases |tags|
  {
    if tags == [] then Some(depth)
    else
      match tags[0]
      case Start(_) => Depth(tags[1..], depth + 1)
      case End => if depth == 0 then None else Depth(tags[1..], depth - 1)
      case Text(_) => Depth(tags[1..], depth)
  }

  predicate Balanced(tags: seq<Tag>) { Depth(tags, 0) == Some(0) }

  datatype Parsed = Parsed(forest: Forest, rest: seq<Tag>)

  /** The forest up to the first end tag without a start; `None` if an element is not closed. */
  function ParseForest(tags: seq<Tag>): (p: Option<Parsed>)
    ensures p.Some? ==> |p.value.rest| <= |tags| && (p.value.rest == [] || p.value.rest[0] == End)
    decreases |tags|
  {
    if tags == [] || tags[0] == End then Some(Parsed(Empty, tags))
    else
      match ParseForest(tags[1..])
      case None => None
      case Some(inner) =>
        match tags[0]
        case Text(text) => Some(Parsed(Words(text, inner.forest), inner.rest))
        case Start(e) =>
          if inner.rest == [] then None
          else
            match ParseForest(inner.rest[1..])
            case None => None
            case Some(next) => Some(Parsed(Element(e, inner.forest, next.forest), next.rest))
  }

  lemma First(t: Tag, rest: seq<Tag>)
    ensures ([t] + rest)[0] == t && ([t] + rest)[1..] == rest
  {
  }

  lemma HeadAndTail(tags: seq<Tag>)
    requires tags != []
    ensures tags == [tags[0]] + tags[1..]
  {
  }

  lemma EmptyFirst(tags: seq<Tag>)
    ensures Flatten(Empty) + tags == tags
  {
  }

  /** The parts of a flattened element, regrouped. */
  lemma FlatElement(e: ElementTag, children: Forest, next: Forest, rest: seq<Tag>)
    ensures Flatten(Element(e, children, next)) + rest
         == [Start(e)] + (Flatten(children) + ([End] + (Flatten(next) + rest)))
  {
    var c, n := Flatten(children), Flatten(next);
    calc {
      Flatten(Element(e, children, next)) + rest;
      [Start(e)] + (c + ([End] + n)) + rest;
      { Assoc([Start(e)], c + ([End] + n), rest); }
      [Start(e)] + (c + ([End] + n) + rest);
      { Assoc(c, [End] + n, rest); }
      [Start(e)] + (c + ([End] + n + rest));
      { Assoc([End], n, rest); }
      [Start(e)] + (c + ([End] + (n + rest)));
    }
  }

  lemma FlatWords(text: string, next: Forest, rest: seq<Tag>)
    ensures Flatten(Words(text, next)) + rest == [Text(text)] + (Flatten(next) + rest)
  {
    Assoc([Text(text)], Flatten(next), rest);
  }

  lemma {:induction false} ParseFlatten(f: Forest, rest: seq<Tag>)
    requires rest == [] || rest[0] == End
    ensures ParseForest(Flatten(f) + rest) == Some(Parsed(f, rest))
  {
    match f
    case Empty => assert Flatten(f) + rest == rest;
    case Words(text, next) =>
      ParseFlatten(next, rest);
      FlatWords(text, next, rest);
      hide Flatten;
      First(Text(text), Flatten(next) + rest);
    case Element(e, children, next) =>
      var after := [End] + (Flatten(next) + rest);
      ParseFlatten(children, after);
      ParseFlatten(next, rest);
      FlatElement(e, children, next, rest);
      hide Flatten;
      First(Start(e), Flatten(children) + after);
      First(End, Flatten(next) + rest);
  }

  lemma {:induction false} FlattenParsed(tags: seq<Tag>)
    requires ParseForest(tags).Some?
    ensures var p := ParseForest(tags).value; tags == Flatten(p.forest) + p.rest
    decreases |tags|
  {
    EmptyFirst(tags);
    hide Flatten;
    if tags == [] || tags[0] == End {
    } else {
      var inner := ParseForest(tags[1..]).value;
      FlattenParsed(tags[1..]);
      HeadAndTail(tags);
      match tags[0] {
        case Text(text) => FlatWords(text, inner.forest, inner.rest);
        case Start(e) =>
          var next := ParseForest(inner.rest[1..]).value;
          FlattenParsed(inner.rest[1..]);
          HeadAndTail(inner.rest);
          FlatElement(e, inner.forest, next.forest, next.rest);
      }
    }
  }

  lemma {:induction false} FlattenKeepsDepth(f: Forest, rest: seq<Tag>, depth: nat)
    ensures Depth(Flatten(f) + rest, depth) == Depth(rest, depth)
  {
    match f
    case Empty => assert Flatten(f) + rest == rest;
    case Words(text, next) =>
      FlattenKeepsDepth(next, rest, depth);
      FlatWords(text, next, rest);
      hide Flatten;
      First(Text(text), Flatten(next) + rest);
    case Element(e, children, next) =>
      var after := [End] + (Flatten(next) + rest);
      FlattenKeepsDepth(children, after, depth + 1);
      FlattenKeepsDepth(next, rest, depth);
      FlatElement(e, children, next, rest);
      hide Flatten;
      First(Start(e), Flatten(children) + after);
      First(End, Flatten(next) + rest);
  }

  /** Where every open element is closed in the end, parsing stops at the end tag of the innermost one. */
  lemma {:induction false} ClosedParses(tags: seq<Tag>, depth: nat)
    requires Depth(tags, depth) == Some(0)
    ensures ParseForest(tags).Some?
    ensures var rest := ParseForest(tags).value.rest; Depth(rest, depth) == Some(0) && (rest == [] <==> depth == 0)
    decreases |tags|
  {
    if tags == [] || tags[0] == End {
    } else if tags[0].Text? {
      ClosedParses(tags[1..], depth);
    } else {
      ClosedParses(tags[1..], depth + 1);
      var rest := ParseForest(tags[1..]).value.rest;
      ClosedParses(rest[1..], depth);
    }
  }

  /** A list is balanced exactly when it is some forest, written flat. */
  lemma BalancedIsForest(tags: seq<Tag>)
    ensures Balanced(tags) <==> exists f :: Flatten(f) == tags
  {
    if Balanced(tags) {
      var f := ForestOf(tags);
    }
    if f :| Flatten(f) == tags {
      FlattenKeepsDepth(f, [], 0);
      assert Flatten(f) + [] == tags;
    }
  }

  lemma ForestOf(tags: seq<Tag>) returns (f: Forest)
    requires Balanced(tags)
    ensures Flatten(f) == tags
  {
    ClosedParses(tags, 0);
    FlattenParsed(tags);
    f := ParseForest(tags).value.forest;
    assert Flatten(f) + [] == Flatten(f);
  }

  /** Only one forest has a given flat form. */
  lemma FlattenIsInjective(f: Forest, g: Forest)
    requires Flatten(f) == Flatten(g)
    ensures f == g
  {
    ParseFlatten(f, []);
    ParseFlatten(g, []);
  }

  // ----- What the operations do to any list -----

  function Cons(t: Tag, found: Option<seq<Tag>>): Option<seq<Tag>> {
    match found
    case None => None
    case Some(tags) => Some([t] + tags)
  }

  /** The rest of a search for `needle`, at some depth and before or after the element was found. */
  function Find(tags: seq<Tag>, needle: string, depth: nat, found: bool): (r: Option<seq<Tag>>)
    ensures found ==> r.Some?
    decreases |tags|
  {
    if tags == [] then if found then Some([]) else None
    else
      match tags[0]
      case Start(e) =>
        if depth == 0 && e.name == needle then Find(tags[1..], needle, depth + 1, true)
        else if found then Cons(tags[0], Find(tags[1..], needle, depth + 1, found))
        else Find(tags[1..], needle, depth + 1, found)
      case End =>
        if found && depth == 1 then Some([])
        else if found then Cons(End, Find(tags[1..], needle, Pred(depth), found))
        else Find(tags[1..], needle, Pred(depth), found)
      case Text(_) =>
        if found then Cons(tags[0], Find(tags[1..], needle, depth, found))
        else Find(tags[1..], needle, depth, found)
  }

  /** `saturating_sub(1)` */
  function Pred(depth: nat): nat { if depth == 0 then 0 else depth - 1 }

  /** What a removal retains of the rest of the list. The depth may go below zero. */
  function Remove(tags: seq<Tag>, name: string, depth: int, removing: bool): seq<Tag>
    decreases |tags|
  {
    if tags == [] then []
    else
      match tags[0]
      case Start(e) =>
        var now := removing || (depth == 0 && e.name == name);
        Kept(tags[0], !now) + Remove(tags[1..], name, depth + 1, now)
      case End =>
        var ends := removing && depth - 1 == 0;
        Kept(End, !removing) + Remove(tags[1..], name, depth - 1, removing && !ends)
      case Text(_) =>
        Kept(tags[0], !removing) + Remove(tags[1..], name, depth, removing)
  }

  function Kept(t: Tag, keep: bool): seq<Tag> { if keep then [t] else [] }

  function Added(tags: seq<Tag>, element: ElementTag, values: seq<Tag>): seq<Tag> {
    tags + ([Start(element)] + (values + [End]))
  }

  class DeadProperty {
    var tags: seq<Tag>

    constructor (tags: seq<Tag>)
      ensures this.tags == tags
    {
      this.tags := tags;
    }

    method FindTag(needle: string) returns (r: Option<seq<Tag>>)
      ensures r == Find(tags, needle, 0, false)
    {
      var depth: nat, result: seq<Tag>, found, i := 0, [], false, 0;
      assert tags[0..] == tags && forall s: seq<Tag> :: [] + s == s;
      while i < |tags|
        invariant 0 <= i <= |tags|
        invariant found || result == []
        invariant Find(tags, needle, 0, false) == Prepend(result, Find(tags[i..], needle, depth, found))
      {
        var tag := tags[i];
        ghost var d, was, before := depth, found, result;
        assert tags[i..][0] == tag && tags[i..][1..] == tags[i + 1..];
        match tag {
          case Start(start) =>
            if depth == 0 && start.name == needle {
              found := true;
            } else if found {
              result := result + [tag];
            }
            depth := depth + 1;
          case End =>
            if found {
              if depth == 1 {
                break;
              } else {
                result := result + [tag];
              }
            }
            depth := if depth == 0 then 0 else depth - 1;
          case Text(_) =>
            if found {
              result := result + [tag];
            }
        }
        i := i + 1;
        StepFind(tags[i - 1..], needle, d, was, before);
      }
      assert i == |tags| ==> tags[i..] == [];
      assert result + [] == result;
      r := if found then Some(result) else None;
    }

    method RemoveElement(element: ElementTag)
      modifies this
      ensures tags == Remove(old(tags), element.name, 0, false)
    {
      var depth, remove, kept: seq<Tag>, i := 0, false, [], 0;
      while i < |tags|
        invariant 0 <= i <= |tags| && tags == old(tags)
        invariant Remove(tags, element.name, 0, false) == kept + Remove(tags[i..], element.name, depth, remove)
      {
        var keep;
        ghost var rest := tags[i..];
        ghost var d, was := depth, remove;
        match tags[i] {
          case Start(tag) =>
            if depth == 0 && !remove && tag.name == element.name {
              remove := true;
            }
            depth := depth + 1;
            keep := !remove;
          case End =>
            depth := depth - 1;
            if remove && depth == 0 {
              remove := false;
              keep := false;
            } else {
              keep := !remove;
            }
          case Text(_) =>
            keep := !remove;
        }
        assert rest[0] == tags[i] && rest[1..] == tags[i + 1..];
        assert Remove(rest, element.name, d, was) == Kept(tags[i], keep) + Remove(rest[1..], element.name, depth, remove);
        Assoc(kept, Kept(tags[i], keep), Remove(tags[i + 1..], element.name, depth, remove));
        kept := if keep then kept + [tags[i]] else kept;
        i := i + 1;
      }
      tags := kept;
    }

    method AddElement(element: ElementTag, values: seq<Tag>)
      modifies this
      ensures tags == Added(old(tags), element, values)
    {
      tags := tags + [Start(element)];
      tags := tags + values;
      tags := tags + [End];
    }
  }

  function Prepend(result: seq<Tag>, found: Option<seq<Tag>>): Option<seq<Tag>> {
    match found
    case None => None
    case Some(tags) => Some(result + tags)
  }

  /** One step of the search, seen from what was collected before it. */
  lemma StepFind(tags: seq<Tag>, needle: string, depth: nat, found: bool, result: seq<Tag>)
    requires tags != [] && (found || result == [])
    ensures var rest := tags[1..];
            var start := tags[0].Start? && depth == 0 && tags[0].element.name == needle;
            var d := if tags[0].Start? then depth + 1 else if tags[0].End? then Pred(depth) else depth;
            !(found && tags[0].End? && depth == 1) ==>
              Prepend(result, Find(tags, needle, depth, found))
              == Prepend(if found && !start then result + [tags[0]] else result, Find(rest, needle, d, found || start))
  {
    var start := tags[0].Start? && depth == 0 && tags[0].element.name == needle;
    var d := if tags[0].Start? then depth + 1 else if tags[0].End? then Pred(depth) else depth;
    var r := Find(tags[1..], needle, d, found || start);
    if r.Some? { Assoc(result, [tags[0]], r.value); }
  }

  // ----- What they do to a forest -----

  /** The children of the first element of that name. */
  function FirstNamed(f: Forest, name: string): Option<Forest> {
    match f
    case Empty => None
    case Words(_, next) => FirstNamed(next, name)
    case Element(e, children, next) => if e.name == name then Some(children) else FirstNamed(next, name)
  }

  function Without(f: Forest, name: string): Forest {
    match f
    case Empty => Empty
    case Words(text, next) => Words(text, Without(next, name))
    case Element(e, children, next) =>
      if e.name == name then Without(next, name) else Element(e, children, Without(next, name))
  }

  function Append(f: Forest, g: Forest): Forest {
    match f
    case Empty => g
    case Words(text, next) => Words(text, Append(next, g))
    case Element(e, children, next) => Element(e, children, Append(next, g))
  }

  lemma {:induction false} FlattenAppend(f: Forest, g: Forest)
    ensures Flatten(Append(f, g)) == Flatten(f) + Flatten(g)
  {
    match f
    case Empty =>
    case Words(text, next) =>
      FlattenAppend(next, g);
      FlatWords(text, next, Flatten(g));
    case Element(e, children, next) =>
      FlattenAppend(next, g);
      FlatElement(e, children, next, Flatten(g));
  }

  /** Inside another element nothing is found. */
  lemma {:induction false} FindSkips(f: Forest, rest: seq<Tag>, needle: string, depth: nat)
    requires depth > 0
    ensures Find(Flatten(f) + rest, needle, depth, false) == Find(rest, needle, depth, false)
  {
    match f
    case Empty => assert Flatten(f) + rest == rest;
    case Words(text, next) =>
      FindSkips(next, rest, needle, depth);
      FlatWords(text, next, rest);
      hide Flatten;
      First(Text(text), Flatten(next) + rest);
    case Element(e, children, next) =>
      var after := [End] + (Flatten(next) + rest);
      FindSkips(children, after, needle, depth + 1);
      FindSkips(next, rest, needle, depth);
      FlatElement(e, children, next, rest);
      hide Flatten;
      First(Start(e), Flatten(children) + after);
      First(End, Flatten(next) + rest);
  }

  lemma FindEnds(tags: seq<Tag>, needle: string, depth: nat)
    requires depth >= 1
    ensures Find(tags + [End], needle, depth, true) == Some(tags) <==> Depth(tags, depth - 1) == Some(0)
    decreases |tags|
  {
    var s := tags + [End];
    if tags == [] {
      assert s == [End] && s[1..] == [];
    } else {
      assert s[0] == tags[0] && s[1..] == tags[1..] + [End];
      assert tags == [tags[0]] + tags[1..];
      match tags[0] {
        case Start(_) =>
          FindEnds(tags[1..], needle, depth + 1);
          ConsIs(tags[0], Find(s[1..], needle, depth + 1, true), tags[1..]);
        case End =>
          if depth > 1 {
            FindEnds(tags[1..], needle, depth - 1);
            ConsIs(End, Find(s[1..], needle, depth - 1, true), tags[1..]);
          }
        case Text(_) =>
          FindEnds(tags[1..], needle, depth);
          ConsIs(tags[0], Find(s[1..], needle, depth, true), tags[1..]);
      }
    }
  }

  lemma ConsIs(t: Tag, found: Option<seq<Tag>>, tags: seq<Tag>)
    ensures Cons(t, found) == Some([t] + tags) <==> found == Some(tags)
  {
    if found.Some? {
      First(t, found.value);
      First(t, tags);
    }
  }

  /** Once an element is found, its content is copied up to its end tag. */
  lemma {:induction false} FindStops(tags: seq<Tag>, rest: seq<Tag>, needle: string, depth: nat)
    requires depth >= 1 && Depth(tags, depth - 1) == Some(0)
    ensures Find(tags + ([End] + rest), needle, depth, true) == Some(tags)
    decreases |tags|
  {
    var s := tags + ([End] + rest);
    if tags == [] {
      assert s == [End] + rest;
    } else {
      assert s[0] == tags[0] && s[1..] == tags[1..] + ([End] + rest);
      assert tags == [tags[0]] + tags[1..];
      match tags[0] {
        case Start(_) => FindStops(tags[1..], rest, needle, depth + 1);
        case End => FindStops(tags[1..], rest, needle, depth - 1);
        case Text(_) => FindStops(tags[1..], rest, needle, depth);
      }
    }
  }

  /** A search looks at the elements of the forest in order and takes the first of that name. */
  lemma {:induction false} FindInForest(f: Forest, rest: seq<Tag>, needle: string)
    ensures Find(Flatten(f) + rest, needle, 0, false)
         == if FirstNamed(f, needle).Some? then Some(Flatten(FirstNamed(f, needle).value))
            else Find(rest, needle, 0, false)
  {
    match f
    case Empty => assert Flatten(f) + rest == rest;
    case Words(text, next) =>
      FindInForest(next, rest, needle);
      FlatWords(text, next, rest);
      hide Flatten;
      First(Text(text), Flatten(next) + rest);
    case Element(e, children, next) =>
      var after := Flatten(next) + rest;
      FlatElement(e, children, next, rest);
      if e.name == needle {
        FlattenKeepsDepth(children, [], 0);
        assert Flatten(children) + [] == Flatten(children);
        FindStops(Flatten(children), after, needle, 1);
      } else {
        FindSkips(children, [End] + after, needle, 1);
        FindInForest(next, rest, needle);
      }
      hide Flatten;
      First(Start(e), Flatten(children) + ([End] + after));
      First(End, after);
  }

  /** Inside an element that stays everything stays; inside one that goes, nothing does. */
  lemma {:induction false} RemoveInside(f: Forest, rest: seq<Tag>, name: string, depth: nat, removing: bool)
    requires depth > 0
    ensures Remove(Flatten(f) + rest, name, depth, removing)
         == (if removing then [] else Flatten(f)) + Remove(rest, name, depth, removing)
  {
    match f
    case Empty => assert Flatten(f) + rest == rest;
    case Words(text, next) =>
      RemoveInside(next, rest, name, depth, removing);
      FlatWords(text, next, rest);
      FlatWords(text, next, Remove(rest, name, depth, removing));
      hide Flatten;
      First(Text(text), Flatten(next) + rest);
    case Element(e, children, next) =>
      var after := [End] + (Flatten(next) + rest);
      RemoveInside(children, after, name, depth + 1, removing);
      RemoveInside(next, rest, name, depth, removing);
      FlatElement(e, children, next, rest);
      FlatElement(e, children, next, Remove(rest, name, depth, removing));
      hide Flatten;
      First(Start(e), Flatten(children) + after);
      First(End, Flatten(next) + rest);
  }

  /** A removal is a filter on the elements of the forest. */
  lemma {:induction false} RemoveFromForest(f: Forest, rest: seq<Tag>, name: string)
    ensures Remove(Flatten(f) + rest, name, 0, false) == Flatten(Without(f, name)) + Remove(rest, name, 0, false)
  {
    var tail := Remove(rest, name, 0, false);
    match f
    case Empty => assert Flatten(f) + rest == rest;
    case Words(text, next) =>
      RemoveFromForest(next, rest, name);
      FlatWords(text, next, rest);
      FlatWords(text, Without(next, name), tail);
      hide Flatten;
      First(Text(text), Flatten(next) + rest);
    case Element(e, children, next) =>
      var after := [End] + (Flatten(next) + rest);
      RemoveInside(children, after, name, 1, e.name == name);
      RemoveFromForest(next, rest, name);
      FlatElement(e, children, next, rest);
      FlatElement(e, children, Without(next, name), tail);
      hide Flatten;
      First(Start(e), Flatten(children) + after);
      First(End, Flatten(next) + rest);
  }

  // ----- Setting a property: remove, then add -----

  function Set(tags: seq<Tag>, element: ElementTag, values: seq<Tag>): seq<Tag> {
    Added(Remove(tags, element.name, 0, false), element, values)
  }

  lemma {:induction false} WithoutHasNone(f: Forest, name: string, other: string)
    ensures FirstNamed(Without(f, name), other) == if other == name then None else FirstNamed(f, other)
  {
    match f
    case Empty =>
    case Words(_, next) => WithoutHasNone(next, name, other);
    case Element(_, _, next) => WithoutHasNone(next, name, other);
  }

  lemma RemovedForest(tags: seq<Tag>, name: string) returns (f: Forest)
    requires Balanced(tags)
    ensures Flatten(f) == tags && Remove(tags, name, 0, false) == Flatten(Without(f, name))
  {
    f := ForestOf(tags);
    RemoveFromForest(f, [], name);
    hide Flatten;
    assert Flatten(f) + [] == tags;
    assert Flatten(Without(f, name)) + [] == Flatten(Without(f, name));
  }

  /** In a balanced list, what is set is what is found: exactly when the value is itself balanced. */
  lemma SetThenFind(tags: seq<Tag>, element: ElementTag, values: seq<Tag>)
    requires Balanced(tags)
    ensures Find(Set(tags, element, values), element.name, 0, false) == Some(values) <==> Balanced(values)
  {
    var f := RemovedForest(tags, element.name);
    var kept := Without(f, element.name);
    FindInForest(kept, [Start(element)] + (values + [End]), element.name);
    WithoutHasNone(f, element.name, element.name);
    hide Flatten, Remove;
    First(Start(element), values + [End]);
    FindEnds(values, element.name, 1);
  }

  /** Setting one property leaves every other as it was. */
  lemma SetKeepsOthers(tags: seq<Tag>, element: ElementTag, values: seq<Tag>, other: string)
    requires Balanced(tags) && Balanced(values) && other != element.name
    ensures Find(Set(tags, element, values), other, 0, false) == Find(tags, other, 0, false)
  {
    var f := RemovedForest(tags, element.name);
    var v := ForestOf(values);
    var added := Element(element, v, Empty);
    var all := Append(Without(f, element.name), added);
    SetForest(tags, element, values, f, v);
    FindInForest(all, [], other);
    FindInForest(f, [], other);
    WithoutHasNone(f, element.name, other);
    FirstOfAppend(Without(f, element.name), added, other);
    hide Flatten, Remove, Find;
    assert Flatten(all) + [] == Flatten(all) && Flatten(f) + [] == Flatten(f);
    NothingFound(other);
  }

  lemma NothingFound(needle: string)
    ensures Find([], needle, 0, false) == None
  {
  }

  lemma {:induction false} FirstOfAppend(f: Forest, g: Forest, name: string)
    ensures FirstNamed(Append(f, g), name)
         == if FirstNamed(f, name).Some? then FirstNamed(f, name) else FirstNamed(g, name)
  {
    match f
    case Empty =>
    case Words(_, next) => FirstOfAppend(next, g, name);
    case Element(_, _, next) => FirstOfAppend(next, g, name);
  }

  /** Setting a property filters the forest and appends one element. */
  lemma SetForest(tags: seq<Tag>, element: ElementTag, values: seq<Tag>, f: Forest, v: Forest)
    requires Flatten(f) == tags && Flatten(v) == values
    ensures Set(tags, element, values) == Flatten(Append(Without(f, element.name), Element(element, v, Empty)))
  {
    RemoveFromForest(f, [], element.name);
    FlattenAppend(Without(f, element.name), Element(element, v, Empty));
    assert Flatten(f) + [] == tags;
    assert Flatten(Without(f, element.name)) + [] == Flatten(Without(f, element.name));
    assert [End] + Flatten(Empty) == [End];
  }

  /** Balance is kept. */
  lemma SetKeepsBalance(tags: seq<Tag>, element: ElementTag, values: seq<Tag>)
    requires Balanced(tags) && Balanced(values)
    ensures Balanced(Remove(tags, element.name, 0, false)) && Balanced(Set(tags, element, values))
  {
    var f := RemovedForest(tags, element.name);
    var v := ForestOf(values);
    SetForest(tags, element, values, f, v);
    BalancedIsForest(Remove(tags, element.name, 0, false));
    BalancedIsForest(Set(tags, element, values));
  }

  // ----- Lists that are not balanced -----

  /** Where no end tag comes without a start, even if some element is never closed, a removed name is not found. */
  lemma {:induction false} RemovedFrom(tags: seq<Tag>, name: string, depth: nat, removing: bool)
    requires Depth(tags, depth).Some? && (removing ==> depth > 0)
    ensures Find(Remove(tags, name, depth, removing), name, if removing then 0 else depth, false) == None
    decreases |tags|
  {
    if tags != [] {
      var t, rest := tags[0], tags[1..];
      match t {
        case Start(e) =>
          var now := removing || (depth == 0 && e.name == name);
          RemovedFrom(rest, name, depth + 1, now);
          KeptFirst(t, !now, Remove(rest, name, depth + 1, now));
        case End =>
          var goesOn := removing && depth > 1;
          RemovedFrom(rest, name, depth - 1, goesOn);
          KeptFirst(End, !removing, Remove(rest, name, depth - 1, goesOn));
        case Text(_) =>
          RemovedFrom(rest, name, depth, removing);
          KeptFirst(t, !removing, Remove(rest, name, depth, removing));
      }
    }
  }

  lemma KeptFirst(t: Tag, keep: bool, rest: seq<Tag>)
    ensures Kept(t, keep) + rest == if keep then [t] + rest else rest
    ensures keep ==> (Kept(t, keep) + rest)[0] == t && (Kept(t, keep) + rest)[1..] == rest
  {
  }

  lemma RemovedIsNotFound(tags: seq<Tag>, name: string)
    requires Depth(tags, 0).Some?
    ensures Find(Remove(tags, name, 0, false), name, 0, false) == None
  {
    RemovedFrom(tags, name, 0, false);
  }

  /** A stray end tag divides the two: the search ignores it, and the removal never gets back to depth 0 before the
      next start, so it keeps an element that the search finds. */
  lemma StrayEndTag(e: ElementTag)
    ensures var tags := [End, Start(e), End];
            Remove(tags, e.name, 0, false) == tags && Find(tags, e.name, 0, false) == Some([])
  {
    var tags := [End, Start(e), End];
    var last, two: seq<Tag> := [End], [Start(e), End];
    assert tags[1..] == two && two[1..] == last && last[1..] == [];
    assert Remove(last, e.name, 0, false) == last;
    assert Remove(two, e.name, -1, false) == [Start(e)] + last;
    assert [Start(e)] + last == two && [End] + two == tags;
    assert Find(last, e.name, 1, true) == Some([]);
    assert Find(two, e.name, 0, false) == Some([]);
  }
}
