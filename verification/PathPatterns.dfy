/** Which places of a tree a path pattern reaches, said about the steps that lead there. */
module PathPatterns {
  import opened Text
  import opened Paths
  import opened Leaves
  import opened TreeReading

  /** `steps` lead to the field or go on below it with an attribute. */
  predicate AtOrBelow(field: seq<Step>, steps: seq<Step>) {
    field <= steps && (|steps| > |field| ==> steps[|field|].Attr?)
  }

  /** No index follows an index. */
  predicate SingleIndices(steps: seq<Step>) {
    forall k :: 0 <= k < |steps| - 1 ==> steps[k].Nth? ==> steps[k + 1].Attr?
  }

  /** `steps` lead to the field, to one of its items or below one. */
  predicate AtOrAmong(field: seq<Step>, steps: seq<Step>) {
    field <= steps && (|steps| > |field| ==> steps[|field|].Nth? && SingleIndices(steps[|field|..]))
  }

  // ----- The text of a path below another -----

  function StepText(step: Step): string {
    match step
    case Attr(name) => "." + name
    case Nth(i) => "[" + Decimal(i) + "]"
  }

  function RestText(steps: seq<Step>): string {
    if steps == [] then "" else StepText(steps[0]) + RestText(steps[1..])
  }

  lemma StepGoesOn(p: string, step: Step)
    requires p != ""
    ensures StepPath(p, step) == p + StepText(step)
  {
    match step
    case Attr(name) => assert p + "." + name == p + ("." + name);
    case Nth(i) => assert p + "[" + Decimal(i) + "]" == p + ("[" + Decimal(i) + "]");
  }

  lemma {:induction false} TextGoesOn(p: string, steps: seq<Step>)
    requires p != ""
    ensures PathText(p, steps) == p + RestText(steps)
    decreases |steps|
  {
    if steps == [] {
      assert p + "" == p;
    } else {
      var step, text := StepText(steps[0]), RestText(steps[1..]);
      StepGoesOn(p, steps[0]);
      TextGoesOn(p + step, steps[1..]);
      assert (p + step) + text == p + (step + text);
    }
  }

  lemma {:induction false} TextConcat(p: string, a: seq<Step>, b: seq<Step>)
    ensures PathText(p, a + b) == PathText(PathText(p, a), b)
    decreases |a|
  {
    if a == [] {
      assert a + b == b;
    } else {
      assert (a + b)[1..] == a[1..] + b;
      TextConcat(StepPath(p, a[0]), a[1..], b);
    }
  }

  lemma TextBelow(field: seq<Step>, steps: seq<Step>)
    requires Proper(field) && field != [] && field <= steps
    ensures PathText("", field) != ""
    ensures PathText("", steps) == PathText("", field) + RestText(steps[|field|..])
  {
    PathGoesBelow("", field);
    assert steps == field + steps[|field|..];
    TextConcat("", field, steps[|field|..]);
    TextGoesOn(PathText("", field), steps[|field|..]);
  }

  /** A text lies at or below another exactly if its steps start with the steps of the other. */
  lemma {:induction false} UnderIffStartsWith(p: string, field: seq<Step>, steps: seq<Step>)
    requires Proper(field) && Proper(steps)
    ensures Under(PathText(p, field), PathText(p, steps)) <==> field <= steps
    decreases |field|
  {
    PathGoesBelow(p, steps);
    PathGoesBelow(p, field);
    if field != [] && steps != [] {
      var q := StepPath(p, field[0]);
      assert field[0] in field && steps[0] in steps;
      StepGoesBelow(p, field[0]);
      PathGoesBelow(q, field[1..]);
      PathGoesBelow(StepPath(p, steps[0]), steps[1..]);
      if Under(PathText(p, field), PathText(p, steps)) {
        UnderTransitive(q, PathText(p, field), PathText(p, steps));
        OneStep(p, field[0], steps[0], PathText(p, steps));
      }
      if field[0] == steps[0] {
        UnderIffStartsWith(q, field[1..], steps[1..]);
        assert field == [field[0]] + field[1..] && steps == [steps[0]] + steps[1..];
      }
    }
  }

  // ----- The three kinds of patterns -----

  lemma Endings(p: string)
    ensures EndsWith(p + ".*", ".*") && (p + ".*")[..|p + ".*"| - 2] == p
    ensures EndsWith(p + "[*]", "[*]") && !EndsWith(p + "[*]", ".*") && (p + "[*]")[..|p + "[*]"| - 3] == p
  {
    assert (p + ".*")[|p|..] == ".*" && (p + "[*]")[|p|..] == "[*]";
    assert (p + "[*]")[|p| + 1..][0] == '*';
  }

  lemma StartsUnder(p: string, c: char, q: string)
    requires c == '.' || c == '['
    ensures StartsWith(q, p + [c]) ==> Under(p, q)
    ensures Under(p, p)
  {
    if StartsWith(q, p + [c]) {
      assert q[|p|] == (p + [c])[|p|] && q[..|p|] == (p + [c])[..|p|] == p;
    }
  }

  lemma BelowMeans(p: string, q: string)
    ensures PathMatches(p + ".*", q) <==> q == p || StartsWith(q, p + ".")
  {
    Endings(p);
  }

  lemma BelowPattern(field: seq<Step>, steps: seq<Step>)
    requires Proper(field) && Proper(steps) && field != []
    ensures PathMatches(PathText("", field) + ".*", PathText("", steps)) <==> AtOrBelow(field, steps)
  {
    var p, q := PathText("", field), PathText("", steps);
    BelowMeans(p, q);
    UnderIffStartsWith("", field, steps);
    if field <= steps {
      TextBelow(field, steps);
      var rest := steps[|field|..];
      if rest == [] {
        assert q == p;
      } else {
        BehindText(p, RestText(rest), '.');
        assert RestText(rest)[0] == StepText(rest[0])[0];
      }
    } else {
      StartsUnder(p, '.', q);
    }
  }

  lemma {:induction false} IndexReadsOn(digits: string, rest: string)
    requires forall c <- digits :: IsDigit(c)
    ensures Completes(digits + "]" + rest, Index) == Completes(rest, IndexEnd)
  {
    if digits == "" {
      assert digits + "]" + rest == "]" + rest && ("]" + rest)[1..] == rest;
    } else {
      assert digits[0] in digits && (digits + "]" + rest)[1..] == digits[1..] + "]" + rest;
      assert forall c <- digits[1..] :: c in digits;
      IndexReadsOn(digits[1..], rest);
    }
  }

  lemma NumeralReadsOn(i: nat, rest: string)
    ensures Completes(Decimal(i) + "]" + rest, IndexStart) == Completes(rest, IndexEnd)
  {
    var n := Decimal(i);
    DecimalDigits(i);
    assert n[0] in n && (n + "]" + rest)[1..] == n[1..] + "]" + rest;
    assert forall c <- n[1..] :: c in n;
    IndexReadsOn(n[1..], rest);
  }

  lemma NameReads(name: string, text: string)
    requires IsIdentifier(name)
    ensures forall at: Reading | at in {Name, IndexEnd} ::
              Completes("." + name + text, at) == Completes(text, Name)
  {
    assert ("." + name + text)[1..] == name + text && (name + text)[1..] == name[1..] + text;
    assert forall c <- name[1..] :: c in name;
    NameReadsOn(name[1..], text);
  }

  lemma IndexReads(i: nat, text: string)
    ensures Completes("[" + Decimal(i) + "]" + text, Name) == Completes(text, IndexEnd)
    ensures !Completes("[" + Decimal(i) + "]" + text, IndexEnd)
  {
    assert ("[" + Decimal(i) + "]" + text)[1..] == Decimal(i) + "]" + text;
    NumeralReadsOn(i, text);
  }

  /** Behind a name or an index the rest of a path is read to its end unless an index follows an index. */
  lemma {:induction false} RestCompletes(steps: seq<Step>, at: Reading)
    requires Proper(steps) && at in {Name, IndexEnd}
    ensures Completes(RestText(steps), at) <==>
            SingleIndices(steps) && (at.IndexEnd? && steps != [] ==> steps[0].Attr?)
    decreases |steps|
  {
    if steps != [] {
      var rest, text := steps[1..], RestText(steps[1..]);
      assert steps[0] in steps;
      assert SingleIndices(steps) <==> SingleIndices(rest) && (steps[0].Nth? && rest != [] ==> rest[0].Attr?) by {
        assert forall k :: 0 <= k < |rest| ==> rest[k] == steps[k + 1];
        assert forall k :: 1 <= k < |steps| ==> steps[k] == rest[k - 1];
      }
      match steps[0]
      case Attr(name) =>
        RestCompletes(rest, Name);
        NameReads(name, text);
        assert RestText(steps) == "." + name + text;
      case Nth(i) =>
        RestCompletes(rest, IndexEnd);
        IndexReads(i, text);
        assert RestText(steps) == "[" + Decimal(i) + "]" + text;
    }
  }

  lemma AmongMeans(p: string, q: string)
    ensures PathMatches(p + "[*]", q) <==>
            q == p || (StartsWith(q, p + "[") && Completes(q[|p| + 1..], IndexStart))
  {
    Endings(p);
  }

  lemma BehindText(p: string, text: string, c: char)
    requires text != ""
    ensures StartsWith(p + text, p + [c]) <==> text[0] == c
    ensures (p + text)[|p| + 1..] == text[1..] && p + text != p
  {
    assert (p + text)[..|p|] == p && (p + text)[|p|] == text[0];
  }

  /** Behind the field the rest is read exactly if it starts with an index and no index follows an index. */
  lemma ItemRest(rest: seq<Step>)
    requires Proper(rest) && rest != [] && rest[0].Nth?
    ensures Completes(RestText(rest)[1..], IndexStart) <==> SingleIndices(rest)
  {
    RestCompletes(rest, Name);
  }

  lemma AmongItems(p: string, rest: seq<Step>)
    requires Proper(rest) && rest != []
    ensures PathMatches(p + "[*]", p + RestText(rest)) <==> rest[0].Nth? && SingleIndices(rest)
  {
    AmongMeans(p, p + RestText(rest));
    BehindText(p, RestText(rest), '[');
    assert RestText(rest)[0] == StepText(rest[0])[0];
    if rest[0].Nth? {
      ItemRest(rest);
    }
  }

  lemma AmongPattern(field: seq<Step>, steps: seq<Step>)
    requires Proper(field) && Proper(steps) && field != []
    ensures PathMatches(PathText("", field) + "[*]", PathText("", steps)) <==> AtOrAmong(field, steps)
  {
    var p, q := PathText("", field), PathText("", steps);
    UnderIffStartsWith("", field, steps);
    if field <= steps {
      TextBelow(field, steps);
      var rest := steps[|field|..];
      if rest == [] {
        assert q == p;
        AmongMeans(p, q);
      } else {
        assert forall step <- rest :: step in steps;
        AmongItems(p, rest);
      }
    } else {
      StartsUnder(p, '[', q);
      AmongMeans(p, q);
    }
  }

  lemma PlainPattern(p: string, q: string)
    requires p != "" && IdentChar(p[|p| - 1])
    ensures PathMatches(p, q) <==> p == q
  {
  }

  lemma LastIsAttribute(field: seq<Step>)
    requires Proper(field) && field != [] && field[|field| - 1].Attr?
    ensures PathText("", field) != "" && IdentChar(PathText("", field)[|PathText("", field)| - 1])
  {
    var p, n := PathText("", field), |field| - 1;
    var name := field[n].name;
    assert field == field[..n] + [Attr(name)] && field[n] in field;
    TextConcat("", field[..n], [Attr(name)]);
    assert p == StepPath(PathText("", field[..n]), Attr(name));
    assert p[|p| - 1] == name[|name| - 1] && name[|name| - 1] in name;
  }

  lemma ExactPattern(field: seq<Step>, steps: seq<Step>)
    requires Proper(field) && Proper(steps) && field != [] && field[|field| - 1].Attr?
    ensures PathMatches(PathText("", field), PathText("", steps)) <==> steps == field
  {
    LastIsAttribute(field);
    PlainPattern(PathText("", field), PathText("", steps));
    if PathText("", steps) == PathText("", field) {
      PathTextInjective("", field, steps);
    }
  }

  lemma NameStarts(name: string, text: string)
    requires IsIdentifier(name)
    ensures IsPath(name + text) == Completes(text, Name)
  {
    assert forall c <- name[1..] :: c in name;
    assert (name + text)[1..] == name[1..] + text;
    NameReadsOn(name[1..], text);
  }

  lemma TailIndices(steps: seq<Step>)
    requires steps != [] && steps[0].Attr?
    ensures SingleIndices(steps) <==> SingleIndices(steps[1..])
  {
    var rest := steps[1..];
    assert forall k :: 0 <= k < |rest| ==> rest[k] == steps[k + 1];
    assert forall k :: 1 <= k < |steps| ==> steps[k] == rest[k - 1];
  }

  /** A path text is a field path exactly if it starts with an attribute and no index follows an index. */
  lemma IsPathIff(steps: seq<Step>)
    requires Proper(steps) && steps != []
    ensures IsPath(PathText("", steps)) <==> steps[0].Attr? && SingleIndices(steps)
  {
    assert steps[0] in steps && PathText("", []) == "";
    if steps[0].Attr? {
      var name, rest := steps[0].name, steps[1..];
      TextGoesOn(name, rest);
      NameStarts(name, RestText(rest));
      RestCompletes(rest, Name);
      TailIndices(steps);
    } else {
      PathGoesBelow(StepPath("", steps[0]), steps[1..]);
      assert StepPath("", steps[0])[0] == '[';
    }
  }
}
