/** The last step of `generate_meal_plan` (server/AI/mealPlanner.py): the
    language model's reply is trimmed and freed of a Markdown code fence
    before the route parses it as JSON. The prompt and the model call
    themselves are not part of this model. */
module MealPlanner {
  import opened PyText

  const OpeningFence := "```json"
  const ClosingFence := "```"

  /** `s` occurs in `t` as one contiguous piece. */
  ghost predicate IsSliceOf(s: string, t: string) {
    exists i, j :: 0 <= i <= j <= |t| && t[i..j] == s
  }

  /** The text `generate_meal_plan` returns for the model's reply: trimmed, an
      opening "```json" removed once if present, then a closing "```" removed
      once if present, trimming again after each removal. */
  function StripCodeFence(reply: string): (r: string)
    ensures IsStripped(r)
    ensures |r| <= |reply|
  {
    DropClosingFence(DropOpeningFence(Strip(reply)))
  }

  /** Lines 101-102: `"```json"` is cut off the front once, and the rest trimmed. */
  function DropOpeningFence(response: string): (r: string)
    ensures |r| <= |response|
    ensures IsStripped(response) ==> IsStripped(r)
  {
    if StartsWith(response, OpeningFence) then Strip(response[|OpeningFence|..]) else response
  }

  /** Lines 103-104: `"```"` is cut off the end once, and the rest trimmed. */
  function DropClosingFence(response: string): (r: string)
    ensures |r| <= |response|
    ensures IsStripped(response) ==> IsStripped(r)
  {
    if EndsWith(response, ClosingFence) then Strip(response[..|response| - |ClosingFence|]) else response
  }

  /** The slice of `s` that `strip()` keeps, as positions. */
  lemma StripBounds(s: string) returns (i: nat, j: nat)
    ensures i <= j <= |s| && Strip(s) == s[i..j]
  {
    StripIsStripOf(s);
    var i', j' :| StripAt(s, Strip(s), i', j');
    i, j := i', j';
  }

  lemma DropOpeningBounds(s: string) returns (i: nat, j: nat)
    ensures i <= j <= |s| && DropOpeningFence(s) == s[i..j]
  {
    if StartsWith(s, OpeningFence) {
      var rest := s[|OpeningFence|..];
      var c, d := StripBounds(rest);
      i, j := SliceOfSlice(s, rest, Strip(rest), |OpeningFence|, |s|, c, d);
    } else {
      i, j := 0, |s|;
    }
  }

  lemma DropClosingBounds(s: string) returns (i: nat, j: nat)
    ensures i <= j <= |s| && DropClosingFence(s) == s[i..j]
  {
    if EndsWith(s, ClosingFence) {
      var rest := s[..|s| - |ClosingFence|];
      i, j := StripBounds(rest);
      assert rest[i..j] == s[i..j];
    } else {
      i, j := 0, |s|;
    }
  }

  /** The returned text is a contiguous piece of the reply, never new text. */
  lemma StripCodeFenceIsSlice(reply: string)
    ensures IsSliceOf(StripCodeFence(reply), reply)
  {
    var unopened := DropOpeningFence(Strip(reply));
    var a, b := UnopenedBounds(reply);
    var e, f := DropClosingBounds(unopened);
    var i, j := SliceOfSlice(reply, unopened, DropClosingFence(unopened), a, b, e, f);
  }

  lemma UnopenedBounds(reply: string) returns (i: nat, j: nat)
    ensures i <= j <= |reply| && DropOpeningFence(Strip(reply)) == reply[i..j]
  {
    var response := Strip(reply);
    var a, b := StripBounds(reply);
    var c, d := DropOpeningBounds(response);
    i, j := SliceOfSlice(reply, response, DropOpeningFence(response), a, b, c, d);
  }

  /** A slice of a slice is a slice. */
  lemma SliceOfSlice(t: string, u: string, r: string, a: nat, b: nat, c: nat, d: nat) returns (i: nat, j: nat)
    requires a <= b <= |t| && u == t[a..b]
    requires c <= d <= |u| && r == u[c..d]
    ensures i <= j <= |t| && r == t[i..j]
  {
    i, j := a + c, a + d;
    assert forall k :: 0 <= k < d - c ==> r[k] == t[a + c + k];
  }

  /** A reply with neither fence comes back merely trimmed. */
  lemma UnfencedReplyTrimmed(reply: string)
    requires !StartsWith(Strip(reply), OpeningFence) && !EndsWith(Strip(reply), ClosingFence)
    ensures StripCodeFence(reply) == Strip(reply)
  {
  }

  /** A bare opening "```" without "json" is not an opening fence: a trimmed
      reply that starts with it and has no closing fence is returned whole. */
  lemma BareOpeningFenceKept(reply: string)
    requires IsStripped(reply) && StartsWith(reply, ClosingFence)
    requires !StartsWith(reply, OpeningFence) && !EndsWith(reply, ClosingFence)
    ensures StripCodeFence(reply) == reply
  {
    StripOfStripped(reply);
  }

  /** The opening fence is removed once only: a second "```json" right after
      it stays in the result. */
  lemma OpeningFenceRemovedOnce(rest: string)
    requires rest != [] && !IsSpace(rest[|rest| - 1])
    requires !EndsWith(Strip(rest), ClosingFence)
    ensures StripCodeFence(OpeningFence + rest) == Strip(rest)
  {
    var reply := OpeningFence + rest;
    assert IsStripped(reply) by {
      assert reply[0] == '`' && reply[|reply| - 1] == rest[|rest| - 1];
    }
    StripOfStripped(reply);
    DropOpeningOfFenced(rest);
  }

  /** An opening fence in front is cut off, and what follows it trimmed. */
  lemma DropOpeningOfFenced(rest: string)
    ensures DropOpeningFence(OpeningFence + rest) == Strip(rest)
  {
    var reply := OpeningFence + rest;
    assert reply[..|OpeningFence|] == OpeningFence;
    assert reply[|OpeningFence|..] == rest;
  }

  /** A closing fence at the end is cut off, and what precedes it trimmed. */
  lemma DropClosingOfFenced(body: string)
    ensures DropClosingFence(body + ClosingFence) == Strip(body)
  {
    var s := body + ClosingFence;
    assert s[|s| - |ClosingFence|..] == ClosingFence;
    assert s[..|s| - |ClosingFence|] == body;
  }

  /** Fencing a trimmed body, with any white space inside the fences, and
      stripping the fences again gives the body back; a body that itself ends
      in "```" keeps it, since only one closing fence is removed. */
  lemma StripCodeFenceOfFenced(body: string, before: string, after: string)
    requires IsStripped(body) && AllSpace(before) && AllSpace(after)
    ensures StripCodeFence(OpeningFence + before + body + after + ClosingFence) == body
  {
    var tail := body + after + ClosingFence;
    assert OpeningFence + before + body + after + ClosingFence == OpeningFence + (before + tail);
    assert (before + tail)[|before + tail| - 1] == '`';
    OpenedReply(before + tail);
    StripLeadingSpace(before, tail);
    ClosedBody(body, after);
  }

  /** A reply that starts with the opening fence and ends in a non-space
      character loses exactly that fence before the closing one is looked at. */
  lemma OpenedReply(x: string)
    requires x != [] && !IsSpace(x[|x| - 1])
    ensures StripCodeFence(OpeningFence + x) == DropClosingFence(Strip(x))
  {
    var reply := OpeningFence + x;
    assert IsStripped(reply) by {
      assert reply[0] == '`' && reply[|reply| - 1] == x[|x| - 1];
    }
    StripOfStripped(reply);
    DropOpeningOfFenced(x);
  }

  /** A trimmed body, white space and a closing fence: the fence and the white
      space go, the body stays. */
  lemma ClosedBody(body: string, after: string)
    requires IsStripped(body) && AllSpace(after)
    ensures DropClosingFence(Strip(body + after + ClosingFence)) == body
  {
    if body != [] {
      var tail := body + after + ClosingFence;
      assert IsStripped(tail) by {
        assert tail[0] == body[0] && tail[|tail| - 1] == '`';
      }
      StripOfStripped(tail);
      assert tail == (body + after) + ClosingFence;
      DropClosingOfFenced(body + after);
      StripTrailingSpace(body, after);
      StripOfStripped(body);
    } else {
      assert body + after + ClosingFence == after + ClosingFence;
      StripLeadingSpace(after, ClosingFence);
      StripOfStripped(ClosingFence);
      DropBareClosingFence();
    }
  }

  /** A reply that is nothing but the closing fence becomes empty. */
  lemma DropBareClosingFence()
    ensures DropClosingFence(ClosingFence) == []
  {
    assert ClosingFence[..0] == [];
    assert Strip([]) == [];
  }
}
