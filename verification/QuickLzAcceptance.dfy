/**
 Exactly which compressed bodies the decoder accepts, and what it makes of them:
 those in which tokens lie one after the other, with a control word wherever the
 flags have run out.
 */
module QuickLzAcceptance {
  import opened Basics
  import opened QuickLzFormat
  import QuickLz

  /** A literal within the last ten bytes. */
  predicate InTail(token: Token, position: nat, size: nat) {
    token.Literal? && size <= position + TAIL_LITERALS
  }

  /** The tokens from the k-th on lie in the data, where `control` holds the flags that are left; a new control word is not zero. */
  ghost predicate Lies(data: seq<u8>, source: nat, control: nat, tokens: seq<Token>, outs: seq<seq<u8>>, k: nat, size: nat)
    requires |outs| == |tokens| + 1 && AllEncodable(tokens)
    decreases |tokens| - k, 1
  {
    k >= |tokens| ||
    if control != 1 then LiesHere(data, source, control, tokens, outs, k, size)
    else exists word: u32 ::
           word != 0 && At(data, source, Bytes32(word)) && LiesHere(data, source + 4, word, tokens, outs, k, size)
  }

  /** The k-th token is of the kind the lowest flag says, and its bytes come next. */
  ghost predicate LiesHere(data: seq<u8>, source: nat, control: nat, tokens: seq<Token>, outs: seq<seq<u8>>, k: nat, size: nat)
    requires |outs| == |tokens| + 1 && AllEncodable(tokens) && k < |tokens|
    decreases |tokens| - k, 0
  {
    && tokens[k].Flag() == control % 2
    && if InTail(tokens[k], |outs[k]|, size) then TailLies(data, source, control, tokens, k)
       else At(data, source, tokens[k].Bytes())
            && Lies(data, source + |tokens[k].Bytes()|, control / 2, tokens, outs, k + 1, size)
  }

  /** At the end only literals follow; the control words between them are not looked at. */
  ghost predicate TailLies(data: seq<u8>, source: nat, control: nat, tokens: seq<Token>, k: nat)
    requires AllEncodable(tokens)
    decreases |tokens| - k
  {
    k >= |tokens| ||
    (var at := if control == 1 then source + 4 else source;
     && tokens[k].Literal? && At(data, at, [tokens[k].value])
     && TailLies(data, at + 1, (if control == 1 then 0x8000_0000 else control) / 2, tokens, k + 1))
  }

  // ---------------------------------------------------------------- what the decoder does with a token

  /** Decoding one token whose flag is known, and what follows. */
  ghost function Here(data: seq<u8>, next: nat, word: u32, out: seq<u8>, starts: set<nat>, size: nat)
    : Result<seq<u8>, QuickLz.Error>
    requires |out| < size
  {
    if word % 2 == 1 then
      var m := QuickLz.ReadMatch(data, next);
      if m.Err? then Err(m.error) else
      var grown := QuickLz.ApplyMatch(out, starts, m.value, size);
      if grown.Err? then Err(grown.error)
      else QuickLz.Decode(data, m.value.source, word / 2, grown.value, starts + {|out|}, size)
    else if size <= |out| + TAIL_LITERALS then
      QuickLz.Tail(data, next, word, out, size)
    else if !QuickLz.Available(data, next, 1) then
      Err(QuickLz.UnexpectedEnd)
    else
      QuickLz.Decode(data, next + 1, word / 2, out + [data[next]], starts + {|out|}, size)
  }

  lemma DecodeIsHere(data: seq<u8>, source: nat, control: u32, out: seq<u8>, starts: set<nat>, size: nat)
    requires |out| < size
    ensures QuickLz.Decode(data, source, control, out, starts, size) ==
            if control != 1 then Here(data, source, control, out, starts, size)
            else if !QuickLz.Available(data, source, 4) then Err(QuickLz.UnexpectedEnd)
            else if QuickLz.U32Little(data, source) == 0 then Err(QuickLz.InvalidControlWord)
            else Here(data, source + 4, QuickLz.U32Little(data, source), out, starts, size)
  {
  }

  // ---------------------------------------------------------------- whatever lies in the data is decoded

  lemma {:induction false} TailIsRead(
    data: seq<u8>, source: nat, control: u32, tokens: seq<Token>, outs: seq<seq<u8>>, k: nat, size: nat)
    requires AllEncodable(tokens) && Expands(tokens, outs) && size == |outs[|tokens|]| && k <= |tokens|
    requires TailLies(data, source, control, tokens, k)
    ensures |outs[k]| <= size && QuickLz.Tail(data, source, control, outs[k], size) == Ok(outs[|tokens|])
    decreases |tokens| - k
  {
    OutputGrows(tokens, outs, k);
    if k < |tokens| {
      TokenGrows(tokens, outs, k);
      var at := if control == 1 then source + 4 else source;
      AtByte(data, at, [tokens[k].value], 0);
      TailIsRead(data, at + 1, (if control == 1 then 0x8000_0000 else control) / 2, tokens, outs, k + 1, size);
    }
  }

  lemma {:induction false} LyingIsDecoded(
    data: seq<u8>, source: nat, control: u32, tokens: seq<Token>, outs: seq<seq<u8>>, k: nat, size: nat)
    requires AllEncodable(tokens) && Expands(tokens, outs) && size == |outs[|tokens|]| && k <= |tokens|
    requires Lies(data, source, control, tokens, outs, k, size)
    ensures |outs[k]| <= size
    ensures QuickLz.Decode(data, source, control, outs[k], Starts(outs, k), size) == Ok(outs[|tokens|])
    decreases |tokens| - k, 1
  {
    OutputGrows(tokens, outs, k);
    if k < |tokens| {
      DecodeIsHere(data, source, control, outs[k], Starts(outs, k), size);
      if control == 1 {
        var word: u32 :|
          word != 0 && At(data, source, Bytes32(word)) && LiesHere(data, source + 4, word, tokens, outs, k, size);
        Reads32(data, source, word);
        HereIsDecoded(data, source + 4, word, tokens, outs, k, size);
      } else {
        HereIsDecoded(data, source, control, tokens, outs, k, size);
      }
    }
  }

  lemma {:induction false} HereIsDecoded(
    data: seq<u8>, source: nat, word: u32, tokens: seq<Token>, outs: seq<seq<u8>>, k: nat, size: nat)
    requires AllEncodable(tokens) && Expands(tokens, outs) && size == |outs[|tokens|]| && k < |tokens| && |outs[k]| < size
    requires LiesHere(data, source, word, tokens, outs, k, size)
    ensures Here(data, source, word, outs[k], Starts(outs, k), size) == Ok(outs[|tokens|])
    decreases |tokens| - k, 0
  {
    OutputGrows(tokens, outs, k + 1);
    TokenGrows(tokens, outs, k);
    if InTail(tokens[k], |outs[k]|, size) {
      TailIsRead(data, source, word, tokens, outs, k, size);
    } else {
      var next := source + |tokens[k].Bytes()|;
      LyingIsDecoded(data, next, word / 2, tokens, outs, k + 1, size);
      if tokens[k].Match? {
        MatchHere(data, source, word, tokens[k], outs[k], Starts(outs, k), outs[k + 1], Starts(outs, k + 1), size);
      } else {
        LiteralHere(data, source, word, tokens[k], outs[k], Starts(outs, k), outs[k + 1], Starts(outs, k + 1), size);
      }
    }
  }

  lemma MatchHere(
    data: seq<u8>, source: nat, word: u32, token: Token,
    out: seq<u8>, starts: set<nat>, grown: seq<u8>, starts': set<nat>, size: nat)
    requires token.Match? && token.Encodable() && At(data, source, token.Bytes()) && word % 2 == 1
    requires Grows(token, out, starts, grown) && |out| < |grown| == |out| + token.length <= size && starts' == starts + {|out|}
    ensures Here(data, source, word, out, starts, size) ==
            QuickLz.Decode(data, source + |token.Bytes()|, word / 2, grown, starts', size)
  {
    ReadsMatch(data, source, token);
    MatchApplied(token, out, starts, grown, source + |token.Bytes()|, size);
  }

  lemma LiteralHere(
    data: seq<u8>, source: nat, word: u32, token: Token,
    out: seq<u8>, starts: set<nat>, grown: seq<u8>, starts': set<nat>, size: nat)
    requires token.Literal? && At(data, source, token.Bytes()) && word % 2 == 0 && size > |out| + TAIL_LITERALS
    requires Grows(token, out, starts, grown) && starts' == starts + {|out|}
    ensures Here(data, source, word, out, starts, size) == QuickLz.Decode(data, source + 1, word / 2, grown, starts', size)
  {
    AtByte(data, source, token.Bytes(), 0);
  }

  // ---------------------------------------------------------------- tokens as encoders write them lie in the data

  lemma {:induction false} StreamTailLies(tokens: seq<Token>, k: nat, n: nat, data: seq<u8>, source: nat)
    requires AllEncodable(tokens) && AllLiteral(tokens, k) && n <= TOKENS_PER_WORD && At(data, source, Stream(tokens, k, n))
    ensures TailLies(data, source, Word(tokens, k, n), tokens, k)
    decreases |tokens| - k
  {
    if k < |tokens| {
      if n == 0 {
        var rest: nat := TOKENS_PER_WORD - 1;
        WordRead(tokens, k, data, source, Word(tokens, k, TOKENS_PER_WORD));
        TokenRead(tokens, k, TOKENS_PER_WORD, data, source + 4);
        LiteralsLeft(tokens, k);
        StreamTailLies(tokens, k + 1, rest, data, source + 5);
        TailLie(data, source, 1, tokens, k, source + 4, Word(tokens, k + 1, rest));
      } else {
        TokenRead(tokens, k, n, data, source);
        StreamTailLies(tokens, k + 1, n - 1, data, source + 1);
        TailLie(data, source, Word(tokens, k, n), tokens, k, source, Word(tokens, k + 1, n - 1));
      }
    }
  }

  lemma TailLie(data: seq<u8>, source: nat, control: nat, tokens: seq<Token>, k: nat, at: nat, rest: nat)
    requires AllEncodable(tokens) && k < |tokens| && tokens[k].Literal? && At(data, at, [tokens[k].value])
    requires at == (if control == 1 then source + 4 else source) && rest == (if control == 1 then 0x8000_0000 else control) / 2
    requires TailLies(data, at + 1, rest, tokens, k + 1)
    ensures TailLies(data, source, control, tokens, k)
  {
  }

  lemma LiteralsLeft(tokens: seq<Token>, k: nat)
    requires AllLiteral(tokens, k)
    ensures Word(tokens, k + 1, TOKENS_PER_WORD - 1) == 0x8000_0000 / 2
  {
    WordOfLiterals(tokens, k, TOKENS_PER_WORD);
    FullWord();
  }

  lemma {:induction false} StreamLies(
    tokens: seq<Token>, outs: seq<seq<u8>>, k: nat, n: nat, data: seq<u8>, source: nat, size: nat)
    requires |outs| == |tokens| + 1 && AllEncodable(tokens) && EndsInLiterals(tokens, outs) && size == |outs[|tokens|]|
    requires n <= TOKENS_PER_WORD && At(data, source, Stream(tokens, k, n))
    ensures Lies(data, source, Word(tokens, k, n), tokens, outs, k, size)
    decreases |tokens| - k, 1
  {
    if k < |tokens| {
      if n == 0 {
        var word := Word(tokens, k, TOKENS_PER_WORD);
        WordRead(tokens, k, data, source, word);
        StreamLiesHere(tokens, outs, k, TOKENS_PER_WORD, data, source + 4, size);
      } else {
        TokenRead(tokens, k, n, data, source);
        StreamLiesHere(tokens, outs, k, n, data, source, size);
      }
    }
  }

  lemma {:induction false} StreamLiesHere(
    tokens: seq<Token>, outs: seq<seq<u8>>, k: nat, n: nat, data: seq<u8>, source: nat, size: nat)
    requires |outs| == |tokens| + 1 && AllEncodable(tokens) && EndsInLiterals(tokens, outs) && size == |outs[|tokens|]|
    requires 0 < n <= TOKENS_PER_WORD && k < |tokens| && At(data, source, Stream(tokens, k, n))
    ensures LiesHere(data, source, Word(tokens, k, n), tokens, outs, k, size)
    decreases |tokens| - k, 0
  {
    TokenRead(tokens, k, n, data, source);
    if InTail(tokens[k], |outs[k]|, size) {
      StreamTailLies(tokens, k, n, data, source);
    } else {
      StreamLies(tokens, outs, k + 1, n - 1, data, source + |tokens[k].Bytes()|, size);
      SmallWord(tokens, k, n);
      LieHere(data, source, Word(tokens, k, n), tokens, outs, k, size, tokens[k]);
    }
  }

  // ---------------------------------------------------------------- whatever is decoded lies in the data

  /** One token more. */
  lemma Extended(tokens: seq<Token>, outs: seq<seq<u8>>, token: Token, grown: seq<u8>)
    returns (more: seq<Token>, moreOuts: seq<seq<u8>>)
    requires AllEncodable(tokens) && Expands(tokens, outs) && token.Encodable()
    requires Grows(token, outs[|tokens|], Starts(outs, |tokens|), grown)
    ensures more == tokens + [token] && moreOuts == outs + [grown] && AllEncodable(more) && Expands(more, moreOuts)
    ensures |more| == |tokens| + 1 && moreOuts[|more|] == grown
    ensures Starts(moreOuts, |more|) == Starts(outs, |tokens|) + {|outs[|tokens|]|}
  {
    more, moreOuts := tokens + [token], outs + [grown];
    StartsStay(outs, moreOuts, |more|);
    forall k | 0 <= k < |more| ensures ExpandsAt(more, moreOuts, k) {
      StartsStay(outs, moreOuts, k);
      if k < |tokens| {
        assert ExpandsAt(tokens, outs, k);
      }
    }
  }

  lemma {:induction false} StartsStay(outs: seq<seq<u8>>, outs': seq<seq<u8>>, k: nat)
    requires k <= |outs| && outs <= outs'
    ensures Starts(outs', k) == Starts(outs, k)
  {
    if k > 0 {
      StartsStay(outs, outs', k - 1);
    }
  }

  /** The match the decoder has read is a token of the format, and what it appends is its copy. */
  lemma MatchIsAToken(data: seq<u8>, source: nat, out: seq<u8>, starts: set<nat>, size: nat, m: QuickLz.Match, grown: seq<u8>)
    returns (token: Token)
    requires |out| <= size && QuickLz.ReadMatch(data, source) == Ok(m) && QuickLz.ApplyMatch(out, starts, m, size) == Ok(grown)
    ensures token.Match? && token.Encodable() && At(data, source, token.Bytes()) && source + |token.Bytes()| == m.source
    ensures Grows(token, out, starts, grown)
  {
    token := MatchRead(data, source, m);
    var reference := QuickLz.Lookup(out, starts, m.hash).value;
    FoundIsNamed(out, starts, m.hash, reference);
    CopiedIsPeriodic(out, reference, m.length);
  }

  lemma MatchRead(data: seq<u8>, source: nat, m: QuickLz.Match) returns (token: Token)
    requires QuickLz.ReadMatch(data, source) == Ok(m)
    ensures token.Match? && token.hash == m.hash && token.length == m.length && token.Encodable()
    ensures At(data, source, token.Bytes()) && source + |token.Bytes()| == m.source
  {
    var encoded := QuickLz.U16Little(data, source);
    token := Match(m.hash, m.length, encoded % 16 != 0);
    HashAndLow(encoded);
    Halves(data[source], data[source + 1], 0x100);
    assert data[source..source + 2] == Bytes16(encoded);
    if !token.short {
      ThirdApart(data, source);
    }
  }

  lemma ThirdApart(data: seq<u8>, source: nat)
    requires source + 3 <= |data|
    ensures data[source..source + 3] == data[source..source + 2] + [data[source + 2]]
  {
  }

  lemma HashAndLow(encoded: u16)
    ensures encoded == encoded / 16 % 4096 * 16 + encoded % 16
  {
  }

  lemma FoundIsNamed(out: seq<u8>, starts: set<nat>, hash: nat, reference: nat)
    requires hash < 0x1000 && QuickLz.Lookup(out, starts, hash) == Some(reference)
    ensures Names(out, starts, hash, reference)
  {
    CandidateHashes(out, starts, hash, reference);
    forall later | later in starts && later > reference ensures !HashesTo(out, later, hash) {
      CandidateHashes(out, starts, hash, later);
      if HashesTo(out, later, hash) {
        QuickLz.MostRecentIsLast(out, starts, hash, |out|, later);
      }
    }
  }

  /** More tokens and outputs than these. */
  ghost predicate Continues(tokens: seq<Token>, outs: seq<seq<u8>>, tokens': seq<Token>, outs': seq<seq<u8>>, result: seq<u8>) {
    && AllEncodable(tokens') && Expands(tokens', outs') && outs'[|tokens'|] == result
    && tokens <= tokens' && outs <= outs' && |outs| == |tokens| + 1
  }

  lemma {:induction false} TailWasWritten(
    data: seq<u8>, source: nat, control: u32, tokens: seq<Token>, outs: seq<seq<u8>>, size: nat, result: seq<u8>)
    returns (tokens': seq<Token>, outs': seq<seq<u8>>)
    requires AllEncodable(tokens) && Expands(tokens, outs) && |outs[|tokens|]| <= size
    requires QuickLz.Tail(data, source, control, outs[|tokens|], size) == Ok(result)
    ensures Continues(tokens, outs, tokens', outs', result) && TailLies(data, source, control, tokens', |tokens|)
    ensures forall i :: |tokens| <= i < |tokens'| ==> tokens'[i].Literal?
    ensures |outs[|tokens|]| < size ==> |tokens| < |tokens'|
    decreases size - |outs[|tokens|]|
  {
    var out := outs[|tokens|];
    if |out| == size {
      tokens', outs' := tokens, outs;
    } else {
      var at := if control == 1 then source + 4 else source;
      var token := Literal(data[at]);
      var more, moreOuts := Extended(tokens, outs, token, out + [data[at]]);
      tokens', outs' := TailWasWritten(
        data, at + 1, (if control == 1 then 0x8000_0000 else control) / 2, more, moreOuts, size, result);
      assert tokens'[|tokens|] == token && At(data, at, [token.value]);
    }
  }

  lemma {:induction false} DecodedWasWritten(
    data: seq<u8>, source: nat, control: u32, tokens: seq<Token>, outs: seq<seq<u8>>, size: nat, result: seq<u8>)
    returns (tokens': seq<Token>, outs': seq<seq<u8>>)
    requires AllEncodable(tokens) && Expands(tokens, outs) && |outs[|tokens|]| <= size
    requires QuickLz.Decode(data, source, control, outs[|tokens|], Starts(outs, |tokens|), size) == Ok(result)
    ensures Continues(tokens, outs, tokens', outs', result) && Lies(data, source, control, tokens', outs', |tokens|, size)
    decreases size - |outs[|tokens|]|, 2
  {
    if |outs[|tokens|]| == size {
      tokens', outs' := tokens, outs;
    } else {
      DecodeIsHere(data, source, control, outs[|tokens|], Starts(outs, |tokens|), size);
      if control == 1 {
        var word := QuickLz.U32Little(data, source);
        Writes32(data, source, word);
        tokens', outs' := HereWasWritten(data, source + 4, word, tokens, outs, size, result);
        assert At(data, source, Bytes32(word));
      } else {
        tokens', outs' := HereWasWritten(data, source, control, tokens, outs, size, result);
      }
    }
  }

  lemma {:induction false} HereWasWritten(
    data: seq<u8>, source: nat, word: u32, tokens: seq<Token>, outs: seq<seq<u8>>, size: nat, result: seq<u8>)
    returns (tokens': seq<Token>, outs': seq<seq<u8>>)
    requires AllEncodable(tokens) && Expands(tokens, outs) && |outs[|tokens|]| < size
    requires Here(data, source, word, outs[|tokens|], Starts(outs, |tokens|), size) == Ok(result)
    ensures Continues(tokens, outs, tokens', outs', result) && |tokens| < |tokens'|
    ensures LiesHere(data, source, word, tokens', outs', |tokens|, size)
    decreases size - |outs[|tokens|]|, 1
  {
    var out, starts := outs[|tokens|], Starts(outs, |tokens|);
    if word % 2 == 1 {
      var token, grown := HereIsAMatch(data, source, word, out, starts, size, result);
      tokens', outs' := TokenWasWritten(data, source, word, tokens, outs, size, result, token, grown);
    } else if size <= |out| + TAIL_LITERALS {
      tokens', outs' := TailWasWritten(data, source, word, tokens, outs, size, result);
      assert outs'[|tokens|] == out;
    } else {
      var token, grown := HereIsALiteral(data, source, word, out, starts, size, result);
      tokens', outs' := TokenWasWritten(data, source, word, tokens, outs, size, result, token, grown);
    }
  }

  /** What continues one token more continues these. */
  lemma ContinuesFrom(
    tokens: seq<Token>, outs: seq<seq<u8>>, token: Token, grown: seq<u8>, more: seq<Token>, moreOuts: seq<seq<u8>>,
    tokens': seq<Token>, outs': seq<seq<u8>>, result: seq<u8>)
    requires |outs| == |tokens| + 1 && more == tokens + [token] && moreOuts == outs + [grown]
    requires Continues(more, moreOuts, tokens', outs', result)
    ensures Continues(tokens, outs, tokens', outs', result) && |tokens| < |tokens'|
    ensures tokens'[|tokens|] == token && outs'[|tokens|] == outs[|tokens|]
  {
    assert tokens'[|tokens|] == more[|tokens|] && outs'[|tokens|] == moreOuts[|tokens|];
  }

  lemma {:induction false} TokenWasWritten(
    data: seq<u8>, source: nat, word: u32, tokens: seq<Token>, outs: seq<seq<u8>>, size: nat, result: seq<u8>,
    token: Token, grown: seq<u8>)
    returns (tokens': seq<Token>, outs': seq<seq<u8>>)
    requires AllEncodable(tokens) && Expands(tokens, outs) && |outs[|tokens|]| < |grown| <= size
    requires token.Encodable() && At(data, source, token.Bytes()) && Grows(token, outs[|tokens|], Starts(outs, |tokens|), grown)
    requires token.Flag() == word % 2 && !InTail(token, |outs[|tokens|]|, size)
    requires QuickLz.Decode(data, source + |token.Bytes()|, word / 2, grown, Starts(outs, |tokens|) + {|outs[|tokens|]|}, size)
             == Ok(result)
    ensures Continues(tokens, outs, tokens', outs', result) && |tokens| < |tokens'|
    ensures LiesHere(data, source, word, tokens', outs', |tokens|, size)
    decreases size - |outs[|tokens|]|, 0
  {
    var more, moreOuts := Extended(tokens, outs, token, grown);
    tokens', outs' := DecodedWasWritten(data, source + |token.Bytes()|, word / 2, more, moreOuts, size, result);
    ContinuesFrom(tokens, outs, token, grown, more, moreOuts, tokens', outs', result);
    LieHere(data, source, word, tokens', outs', |tokens|, size, token);
  }

  lemma HereIsALiteral(data: seq<u8>, source: nat, word: u32, out: seq<u8>, starts: set<nat>, size: nat, result: seq<u8>)
    returns (token: Token, grown: seq<u8>)
    requires |out| + TAIL_LITERALS < size && word % 2 == 0 && Here(data, source, word, out, starts, size) == Ok(result)
    ensures token.Literal? && At(data, source, token.Bytes()) && Grows(token, out, starts, grown) && |out| < |grown| <= size
    ensures QuickLz.Decode(data, source + |token.Bytes()|, word / 2, grown, starts + {|out|}, size) == Ok(result)
  {
    token, grown := Literal(data[source]), out + [data[source]];
    assert data[source..source + 1] == [data[source]];
  }

  lemma HereIsAMatch(data: seq<u8>, source: nat, word: u32, out: seq<u8>, starts: set<nat>, size: nat, result: seq<u8>)
    returns (token: Token, grown: seq<u8>)
    requires |out| < size && word % 2 == 1 && Here(data, source, word, out, starts, size) == Ok(result)
    ensures token.Match? && token.Encodable() && At(data, source, token.Bytes()) && Grows(token, out, starts, grown)
    ensures |out| < |grown| <= size
    ensures QuickLz.Decode(data, source + |token.Bytes()|, word / 2, grown, starts + {|out|}, size) == Ok(result)
  {
    var m := QuickLz.ReadMatch(data, source).value;
    grown := QuickLz.ApplyMatch(out, starts, m, size).value;
    token := MatchIsAToken(data, source, out, starts, size, m, grown);
  }

  lemma LieHere(
    data: seq<u8>, source: nat, word: u32, tokens: seq<Token>, outs: seq<seq<u8>>, k: nat, size: nat, token: Token)
    requires |outs| == |tokens| + 1 && AllEncodable(tokens) && k < |tokens| && tokens[k] == token
    requires token.Flag() == word % 2 && !InTail(token, |outs[k]|, size) && At(data, source, token.Bytes())
    requires Lies(data, source + |token.Bytes()|, word / 2, tokens, outs, k + 1, size)
    ensures LiesHere(data, source, word, tokens, outs, k, size)
  {
  }

  // ---------------------------------------------------------------- whole blocks

  /** The body of the block holds tokens that stand for `result`, which is as long as declared. */
  ghost predicate Describes(block: seq<u8>, tokens: seq<Token>, outs: seq<seq<u8>>, result: seq<u8>)
    requires |block| >= 3 && |block| >= QuickLz.HeaderSize(block)
  {
    && AllEncodable(tokens) && Expands(tokens, outs) && result == outs[|tokens|]
    && |result| == QuickLz.DeclaredSize(block)
    && Lies(block, QuickLz.HeaderSize(block), 1, tokens, outs, 0, |result|)
  }

  /** A compressed block is accepted with a result if and only if tokens that stand for the result lie in it. */
  lemma AcceptedIfAndOnlyIfDescribed(block: seq<u8>, maximum: nat, result: seq<u8>)
    requires QuickLz.CheckHeader(block, maximum) == Ok(true)
    ensures QuickLz.Decompressed(block, maximum) == Ok(result) <==> exists tokens, outs :: Describes(block, tokens, outs, result)
  {
    var start, size := QuickLz.HeaderSize(block), QuickLz.DeclaredSize(block);
    assert Expands([], [[]]) && Starts([[]], 0) == {};
    if QuickLz.Decompressed(block, maximum) == Ok(result) {
      var tokens, outs := DecodedWasWritten(block, start, 1, [], [[]], size, result);
      assert Describes(block, tokens, outs, result);
    }
    if tokens, outs :| Describes(block, tokens, outs, result) {
      BodyIsDecoded(block, start, tokens, outs, size);
    }
  }

  lemma BodyIsDecoded(block: seq<u8>, start: nat, tokens: seq<Token>, outs: seq<seq<u8>>, size: nat)
    requires AllEncodable(tokens) && Expands(tokens, outs) && size == |outs[|tokens|]|
    requires Lies(block, start, 1, tokens, outs, 0, size)
    ensures QuickLz.Decode(block, start, 1, [], {}, size) == Ok(outs[|tokens|])
  {
    assert Starts(outs, 0) == {};
    LyingIsDecoded(block, start, 1, tokens, outs, 0, size);
  }

  /**
   Decompressing the bytes of any tokens as encoders write them gives exactly
   what the tokens stand for, with either header, unless that is empty or longer
   than allowed.
   */
  lemma BlockIsItsExpansion(spare: nat, long: bool, tokens: seq<Token>, outs: seq<seq<u8>>, result: seq<u8>, maximum: nat)
    requires Compresses(tokens, outs, result) && spare < 4 && SizesFit(long, |Stream(tokens, 0, 0)|, |result|)
    ensures QuickLz.Decompressed(Block(spare, long, true, |result|, Stream(tokens, 0, 0)), maximum)
         == if |result| > maximum then Err(QuickLz.ExceedsMaximum)
            else if result == [] then Err(QuickLz.EmptyPayload)
            else Ok(result)
  {
    var body := Stream(tokens, 0, 0);
    HeaderRead(spare, long, true, |result|, body);
    HeaderChecked(spare, long, true, |result|, body, maximum);
    if 0 < |result| <= maximum {
      var block, start := Block(spare, long, true, |result|, body), if long then 9 else 3;
      StreamLies(tokens, outs, 0, 0, block, start, |result|);
      BodyIsDecoded(block, start, tokens, outs, |result|);
    }
  }
}
