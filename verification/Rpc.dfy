/** RPC messages and the loop that calls a server. A word is the four bytes it occupies in memory, since
    arguments are moved through unions of the argument and an array of words. */
module Rpc {
  type byte = int
  type Word = w: seq<byte> | |w| == 4 witness [0, 0, 0, 0]

  const EINVAL: int := 22
  const ARG_SLOTS: nat := 63
  const ZERO: Word := [0, 0, 0, 0]

  /** The tag's label (16 bits) and count of untyped words (6 bits), and the memory behind the tag: the 63 argument
      slots of the message and whatever follows them. Words from count on are left over from before. */
  datatype Msg = Msg(id: nat, count: nat, words: seq<Word>)

  ghost predicate IsMsg(m: Msg) {
    |m.words| >= ARG_SLOTS && m.count <= ARG_SLOTS && m.id < 0x1_0000
  }

  /** l4_msg_append_word: the count is raised first, within its six bits, and is the slot to write. Slot 0 is the
      tag, which is stored last, so that a word that makes the count wrap around is lost. */
  function Append(m: Msg, w: Word): Msg
    requires IsMsg(m)
  {
    var count := (m.count + 1) % 64;
    Msg(m.id, count, if count == 0 then m.words else m.words[count - 1 := w])
  }

  /** Words an argument of the given size takes up. */
  function WordCount(size: nat): (n: nat)
    ensures size <= 4 * n < size + 4
  {
    (size + 3) / 4
  }

  function TotalWords(sizes: seq<nat>): nat {
    if sizes == [] then 0 else WordCount(sizes[0]) + TotalWords(sizes[1..])
  }

  function Sizes(args: seq<seq<byte>>): (s: seq<nat>)
    ensures |s| == |args| && forall i | 0 <= i < |s| :: s[i] == |args[i]|
  {
    if args == [] then [] else [|args[0]|] + Sizes(args[1..])
  }

  /* ---------- what a message holds ---------- */

  /** The words from idx on begin with the bytes of arg; bytes that pad the last word can be anything. */
  ghost predicate HoldsArg(words: seq<Word>, idx: nat, arg: seq<byte>) {
    && idx + WordCount(|arg|) <= |words|
    && forall k | 0 <= k < |arg| :: arg[k] == words[idx + k / 4][k % 4]
  }

  ghost predicate HoldsArgs(words: seq<Word>, idx: nat, args: seq<seq<byte>>)
    decreases |args|
  {
    args == [] || (HoldsArg(words, idx, args[0]) && HoldsArgs(words, idx + WordCount(|args[0]|), args[1..]))
  }

  /** A message holds at most one list of arguments of given sizes. */
  lemma {:induction false} HeldOnce(words: seq<Word>, idx: nat, args: seq<seq<byte>>, args': seq<seq<byte>>)
    requires HoldsArgs(words, idx, args) && HoldsArgs(words, idx, args') && Sizes(args) == Sizes(args')
    ensures args == args'
    decreases |args|
  {
    assert |args'| == |Sizes(args')| == |args|;
    if args != [] {
      var n := |args[0]|;
      assert n == Sizes(args)[0] == |args'[0]|;
      SizesTail(args);
      SizesTail(args');
      HeldArgOnce(words, idx, args[0], args'[0]);
      hide HoldsArg, Sizes, WordCount;
      HeldOnce(words, idx + WordCount(n), args[1..], args'[1..]);
      assert args == [args[0]] + args[1..] && args' == [args'[0]] + args'[1..];
    }
  }

  lemma SizesTail(args: seq<seq<byte>>)
    requires args != []
    ensures Sizes(args[1..]) == Sizes(args)[1..]
  {
  }

  lemma HeldArgOnce(words: seq<Word>, idx: nat, arg: seq<byte>, arg': seq<byte>)
    requires HoldsArg(words, idx, arg) && HoldsArg(words, idx, arg') && |arg| == |arg'|
    ensures arg == arg'
  {
  }

  lemma HoldsMore(words: seq<Word>, words': seq<Word>, idx: nat, arg: seq<byte>)
    requires HoldsArg(words, idx, arg) && idx + WordCount(|arg|) <= |words'|
    requires forall i | 0 <= i < idx + WordCount(|arg|) :: words'[i] == words[i]
    ensures HoldsArg(words', idx, arg)
  {
    forall k | 0 <= k < |arg|
      ensures arg[k] == words'[idx + k / 4][k % 4]
    {
      WordOfByte(k, |arg|);
    }
  }

  lemma WordOfByte(k: nat, size: nat)
    requires k < size
    ensures 0 <= k / 4 < WordCount(size) && 0 <= k % 4 < 4
  {
  }

  /** The arguments up to the current one stay when more words are appended. */
  lemma {:induction false} HoldsAppend(words: seq<Word>, words': seq<Word>, idx: nat, args: seq<seq<byte>>,
                                       arg: seq<byte>)
    requires HoldsArgs(words, idx, args) && |words'| == |words|
    requires var end := idx + TotalWords(Sizes(args));
             (forall i | 0 <= i < end && i < |words| :: words'[i] == words[i]) && HoldsArg(words', end, arg)
    ensures HoldsArgs(words', idx, args + [arg])
    ensures TotalWords(Sizes(args + [arg])) == TotalWords(Sizes(args)) + WordCount(|arg|)
    decreases |args|
  {
    if args == [] {
      assert args + [arg] == [arg] && [arg][1..] == [];
    } else {
      var rest := args[1..];
      assert Sizes(args)[1..] == Sizes(rest);
      assert (args + [arg])[1..] == rest + [arg];
      HoldsMore(words, words', idx, args[0]);
      HoldsAppend(words, words', idx + WordCount(|args[0]|), rest, arg);
      assert Sizes(args + [arg])[1..] == Sizes(rest + [arg]);
    }
  }

  /** What a message holds depends on the words of the arguments alone. */
  lemma {:induction false} HoldsSame(words: seq<Word>, words': seq<Word>, idx: nat, args: seq<seq<byte>>)
    requires HoldsArgs(words, idx, args)
    requires idx + TotalWords(Sizes(args)) <= |words'|
    requires forall i | 0 <= i < idx + TotalWords(Sizes(args)) && i < |words| :: words'[i] == words[i]
    ensures HoldsArgs(words', idx, args)
    decreases |args|
  {
    if args != [] {
      var rest := args[1..];
      assert Sizes(args)[1..] == Sizes(rest);
      HoldsMore(words, words', idx, args[0]);
      HoldsSame(words, words', idx + WordCount(|args[0]|), rest);
    }
  }

  /* ---------- marshalling ---------- */

  /** RPCLOADARG: appends the words of the union; pad is what the bytes behind the argument happen to be. */
  method LoadArg(m: Msg, arg: seq<byte>, pad: byte) returns (m': Msg)
    requires IsMsg(m)
    ensures IsMsg(m') && m'.id == m.id && m'.count == (m.count + WordCount(|arg|)) % 64
    ensures m.count + WordCount(|arg|) <= ARG_SLOTS ==> HoldsArg(m'.words, m.count, arg)
    ensures m.count + WordCount(|arg|) <= ARG_SLOTS ==> SameUpTo(m.count, m.words, m'.words)
    ensures SameBehind(m.words, m'.words)
  {
    hide *;
    m' := m;
    assert Loading(m, m, arg, 0) by { NothingLoaded(m, arg); }
    var i := 0;
    while i < WordCount(|arg|)
      invariant i <= WordCount(|arg|) && IsMsg(m) && IsMsg(m') && Loading(m, m', arg, i)
    {
      var word := UnionWord(arg, pad, i);
      LoadingNext(m, m', arg, i, word);
      m' := Append(m', word);
      i := i + 1;
    }
    AllLoaded(m, m', arg);
  }

  /** Word i of the union. */
  function UnionWord(arg: seq<byte>, pad: byte, i: nat): (w: Word)
    ensures forall j | 0 <= j < 4 && 4 * i + j < |arg| :: w[j] == arg[4 * i + j]
  {
    seq(4, j requires 0 <= j < 4 => if 4 * i + j < |arg| then arg[4 * i + j] else pad)
  }

  /** m' is m after i words of the argument. */
  ghost predicate Loading(m: Msg, m': Msg, arg: seq<byte>, i: nat) {
    && m'.id == m.id
    && m'.count == (m.count + i) % 64
    && SameBehind(m.words, m'.words)
    && (m.count + i <= ARG_SLOTS ==> SameUpTo(m.count, m.words, m'.words) && Loaded(m'.words, m.count, arg, i))
  }

  lemma NothingLoaded(m: Msg, arg: seq<byte>)
    requires IsMsg(m)
    ensures Loading(m, m, arg, 0)
  {
  }

  lemma LoadingNext(m: Msg, m': Msg, arg: seq<byte>, i: nat, word: Word)
    requires IsMsg(m) && IsMsg(m') && Loading(m, m', arg, i)
    requires forall j | 0 <= j < 4 && 4 * i + j < |arg| :: word[j] == arg[4 * i + j]
    ensures var m'' := Append(m', word); IsMsg(m'') && Loading(m, m'', arg, i + 1)
  {
    var m'' := Append(m', word);
    if m.count + i < ARG_SLOTS {
      LoadedNext(m'.words, m.count, arg, i, word);
      hide Loaded;
      assert m''.words == m'.words[m.count + i := word];
    } else {
      hide Loaded;
    }
  }

  lemma AllLoaded(m: Msg, m': Msg, arg: seq<byte>)
    requires IsMsg(m) && Loading(m, m', arg, WordCount(|arg|))
    ensures m'.id == m.id && m'.count == (m.count + WordCount(|arg|)) % 64
    ensures m.count + WordCount(|arg|) <= ARG_SLOTS ==> HoldsArg(m'.words, m.count, arg)
    ensures m.count + WordCount(|arg|) <= ARG_SLOTS ==> SameUpTo(m.count, m.words, m'.words)
    ensures SameBehind(m.words, m'.words)
  {
    if m.count + WordCount(|arg|) <= ARG_SLOTS {
      forall k | 0 <= k < |arg|
        ensures arg[k] == m'.words[m.count + k / 4][k % 4]
      {
        WordOfByte(k, |arg|);
      }
    }
  }

  /** The memory behind the message is not touched. */
  ghost predicate SameBehind(words: seq<Word>, words': seq<Word>) {
    |words| == |words'| && forall i | ARG_SLOTS <= i < |words| :: words'[i] == words[i]
  }

  ghost predicate SameUpTo(n: nat, words: seq<Word>, words': seq<Word>) {
    |words| == |words'| && forall i | 0 <= i < n && i < |words| :: words'[i] == words[i]
  }

  /** The first n words of the argument are in place. */
  ghost predicate Loaded(words: seq<Word>, idx: nat, arg: seq<byte>, n: nat) {
    idx + n <= |words| && forall k | 0 <= k < |arg| && k < 4 * n :: arg[k] == words[idx + k / 4][k % 4]
  }

  lemma LoadedNext(words: seq<Word>, idx: nat, arg: seq<byte>, n: nat, word: Word)
    requires Loaded(words, idx, arg, n) && idx + n < |words|
    requires forall j | 0 <= j < 4 && 4 * n + j < |arg| :: word[j] == arg[4 * n + j]
    ensures Loaded(words[idx + n := word], idx, arg, n + 1)
  {
    var words' := words[idx + n := word];
    forall k | 0 <= k < |arg| && k < 4 * (n + 1)
      ensures arg[k] == words'[idx + k / 4][k % 4]
    {
      if k < 4 * n {
        assert arg[k] == words[idx + k / 4][k % 4];
      } else {
        var j := k - 4 * n;
        assert k / 4 == n && k % 4 == j && word[j] == arg[4 * n + j];
      }
    }
  }

  /** RPCLOAD: one argument after the other. */
  method LoadArgs(m: Msg, args: seq<seq<byte>>, pad: byte) returns (m': Msg)
    requires IsMsg(m)
    ensures IsMsg(m') && ArgsLoaded(m, m', args)
  {
    hide *;
    m' := m;
    assert ArgsLoaded(m, m, []) by { NoArgsLoaded(m); }
    for n := 0 to |args|
      invariant IsMsg(m') && ArgsLoaded(m, m', args[..n])
    {
      ghost var before := m';
      m' := LoadArg(m', args[n], pad);
      ArgsLoadedNext(m, before, m', args[..n], args[n]);
      assert args[..n + 1] == args[..n] + [args[n]];
    }
    assert args[..|args|] == args;
  }

  /** m' is m with the arguments appended: counted in six bits, and held in order if they fit. */
  ghost predicate ArgsLoaded(m: Msg, m': Msg, args: seq<seq<byte>>) {
    var end := m.count + TotalWords(Sizes(args));
    && m'.id == m.id
    && m'.count == end % 64
    && SameBehind(m.words, m'.words)
    && (end <= ARG_SLOTS ==> SameUpTo(m.count, m.words, m'.words) && HoldsArgs(m'.words, m.count, args))
  }

  lemma NoArgsLoaded(m: Msg)
    requires IsMsg(m)
    ensures ArgsLoaded(m, m, [])
  {
  }

  lemma ArgsLoadedNext(m: Msg, m': Msg, m'': Msg, args: seq<seq<byte>>, arg: seq<byte>)
    requires IsMsg(m) && IsMsg(m') && ArgsLoaded(m, m', args)
    requires m''.id == m'.id && m''.count == (m'.count + WordCount(|arg|)) % 64
    requires m'.count + WordCount(|arg|) <= ARG_SLOTS ==> HoldsArg(m''.words, m'.count, arg)
    requires m'.count + WordCount(|arg|) <= ARG_SLOTS ==> SameUpTo(m'.count, m'.words, m''.words)
    requires SameBehind(m'.words, m''.words)
    ensures ArgsLoaded(m, m'', args + [arg])
  {
    hide HoldsArg, HoldsArgs, Sizes, TotalWords, WordCount;
    TotalOfAppend(args, arg);
    if m.count + TotalWords(Sizes(args + [arg])) <= ARG_SLOTS {
      HoldsAppend(m'.words, m''.words, m.count, args, arg);
    }
  }

  lemma {:induction false} TotalOfAppend(args: seq<seq<byte>>, arg: seq<byte>)
    ensures TotalWords(Sizes(args + [arg])) == TotalWords(Sizes(args)) + WordCount(|arg|)
  {
    if args == [] {
      assert args + [arg] == [arg] && Sizes([arg]) == [|arg|] && [|arg|][1..] == [];
    } else {
      assert (args + [arg])[1..] == args[1..] + [arg];
      TotalOfAppend(args[1..], arg);
    }
  }

  /** RPCSTORE: reads arguments of the given sizes from word idx on. Nothing keeps it inside the message. */
  method StoreArgs(words: seq<Word>, idx: nat, sizes: seq<nat>) returns (args: seq<seq<byte>>, end: nat)
    requires idx + TotalWords(sizes) <= |words|
    ensures Sizes(args) == sizes && end == idx + TotalWords(sizes) && HoldsArgs(words, idx, args)
    decreases |sizes|
  {
    args, end := [], idx;
    if sizes != [] {
      var n := sizes[0];
      forall k: nat | k < n ensures k / 4 < WordCount(n) { WordOfByte(k, n); }
      var arg := seq(n, k requires 0 <= k < n => words[idx + k / 4][k % 4]);
      var rest;
      rest, end := StoreArgs(words, idx + WordCount(n), sizes[1..]);
      args := [arg] + rest;
      assert args[1..] == rest;
    }
  }

  /** _send_marshal. The label keeps the low 16 bits of the method id. */
  method SendMarshal(buffer: Msg, id: nat, args: seq<seq<byte>>, pad: byte) returns (m: Msg)
    requires IsMsg(buffer)
    ensures IsMsg(m) && m.id == id % 0x1_0000 && m.count == TotalWords(Sizes(args)) % 64
    ensures TotalWords(Sizes(args)) <= ARG_SLOTS ==> HoldsArgs(m.words, 0, args)
  {
    m := LoadArgs(Msg(id % 0x1_0000, 0, buffer.words), args, pad);
  }

  /** _send_unmarshal: succeeds exactly for the right method and the right number of words. */
  method SendUnmarshal(m: Msg, id: nat, sizes: seq<nat>) returns (err: int, args: seq<seq<byte>>)
    requires IsMsg(m) && TotalWords(sizes) <= |m.words|
    ensures err == 0 <==> m.id == id && m.count == TotalWords(sizes)
    ensures err == 0 ==> Sizes(args) == sizes && HoldsArgs(m.words, 0, args)
    ensures err == 0 || err == EINVAL
  {
    args := [];
    if m.id != id {
      return EINVAL, args;
    }
    var idx;
    args, idx := StoreArgs(m.words, 0, sizes);
    err := if idx != m.count then EINVAL else 0;
  }

  /** _reply_marshal: word 0 is the error code. */
  method ReplyMarshal(buffer: Msg, id: nat, args: seq<seq<byte>>, pad: byte) returns (m: Msg)
    requires IsMsg(buffer)
    ensures IsMsg(m) && m.id == id % 0x1_0000 && m.count == (1 + TotalWords(Sizes(args))) % 64
    ensures 1 + TotalWords(Sizes(args)) <= ARG_SLOTS ==> m.words[0] == ZERO && HoldsArgs(m.words, 1, args)
  {
    m := LoadArgs(Append(Msg(id % 0x1_0000, 0, buffer.words), ZERO), args, pad);
  }

  /** rpc_error_reply_marshal */
  function ErrorReply(buffer: Msg, err: Word): Msg
    requires IsMsg(buffer)
  {
    Msg(0, 1, buffer.words[0 := err])
  }

  /** _reply_unmarshal: the error code in word 0, or EINVAL for a success with the wrong number of words. */
  method ReplyUnmarshal(m: Msg, sizes: seq<nat>) returns (err: Word, malformed: bool, args: seq<seq<byte>>)
    requires IsMsg(m) && 1 + TotalWords(sizes) <= |m.words|
    ensures err == m.words[0]
    ensures malformed <==> err == ZERO && m.count != 1 + TotalWords(sizes)
    ensures Sizes(args) == sizes && HoldsArgs(m.words, 1, args)
  {
    err := m.words[0];
    var idx;
    args, idx := StoreArgs(m.words, 1, sizes);
    malformed := err == ZERO && idx != m.count;
  }

  /* ---------- from the sender's buffer to the receiver's ---------- */

  /** l4_msg_load and l4_msg_store: the tag and the words it counts are carried over. */
  function Transfer(m: Msg, there: seq<Word>): Msg
    requires IsMsg(m) && |there| >= ARG_SLOTS
  {
    Msg(m.id, m.count, m.words[..m.count] + there[m.count..])
  }

  /** Whatever the sizes of the arguments and whatever was in the buffers, a marshalled request is accepted exactly
      if its words fit the message and the method id fits the label. Then every argument is restored. */
  method SendRoundTrip(buffer: Msg, there: seq<Word>, id: nat, args: seq<seq<byte>>, pad: byte)
    returns (err: int, args': seq<seq<byte>>)
    requires IsMsg(buffer) && |there| >= ARG_SLOTS && |there| >= TotalWords(Sizes(args))
    ensures err == 0 <==> TotalWords(Sizes(args)) <= ARG_SLOTS && id < 0x1_0000
    ensures if err == 0 then args' == args else err == EINVAL
  {
    var m := SendMarshal(buffer, id, args, pad);
    var m' := Transfer(m, there);
    err, args' := SendUnmarshal(m', id, Sizes(args));
    if err == 0 {
      HoldsSame(m.words, m'.words, 0, args);
      HeldOnce(m'.words, 0, args, args');
    }
  }

  /** The same for replies, which have one word less for arguments. The label is not looked at. */
  method ReplyRoundTrip(buffer: Msg, there: seq<Word>, id: nat, args: seq<seq<byte>>, pad: byte)
    returns (err: Word, malformed: bool, args': seq<seq<byte>>)
    requires IsMsg(buffer) && |there| >= ARG_SLOTS && |there| >= 1 + TotalWords(Sizes(args))
    ensures err == ZERO && !malformed <==> 1 + TotalWords(Sizes(args)) <= ARG_SLOTS
    ensures err == ZERO && !malformed ==> args' == args
  {
    var m := ReplyMarshal(buffer, id, args, pad);
    var m' := Transfer(m, there);
    err, malformed, args' := ReplyUnmarshal(m', Sizes(args));
    if err == ZERO && !malformed {
      HoldsSame(m.words, m'.words, 1, args);
      HeldOnce(m'.words, 1, args, args');
    }
  }

  /** An argument of 256 bytes is one word too many: the 64th word makes the count 0, and the request is refused. */
  method OversizedRequest(buffer: Msg, there: seq<Word>, id: nat, arg: seq<byte>, pad: byte)
    returns (m: Msg, err: int)
    requires IsMsg(buffer) && |there| >= ARG_SLOTS + 1 && |arg| == 256
    ensures m.count == 0 && err == EINVAL
  {
    TotalOfAppend([], arg);
    assert [] + [arg] == [arg];
    m := SendMarshal(buffer, id, [arg], pad);
    var args;
    err, args := SendUnmarshal(Transfer(m, there), id, Sizes([arg]));
  }

  /** An argument of 252 bytes is one word too many for a reply. No word of it is carried over, so that the caller
      takes what its own buffer holds in word 0, the first word of its request, for the error. */
  method OversizedReply(buffer: Msg, there: seq<Word>, id: nat, arg: seq<byte>, pad: byte)
    returns (err: Word, malformed: bool)
    requires IsMsg(buffer) && |there| >= ARG_SLOTS + 1 && |arg| == 252
    ensures err == there[0] && (malformed <==> there[0] == ZERO)
  {
    TotalOfAppend([], arg);
    assert [] + [arg] == [arg];
    var m := ReplyMarshal(buffer, id, [arg], pad);
    var args;
    err, malformed, args := ReplyUnmarshal(Transfer(m, there), Sizes([arg]));
  }

  /** An error reply yields its error, whatever arguments the caller expects. */
  method ErrorRoundTrip(buffer: Msg, there: seq<Word>, err: Word, sizes: seq<nat>)
    returns (err': Word, malformed: bool)
    requires IsMsg(buffer) && |there| >= ARG_SLOTS && |there| >= 1 + TotalWords(sizes) && err != ZERO
    ensures err' == err && !malformed
  {
    var args;
    err', malformed, args := ReplyUnmarshal(Transfer(ErrorReply(buffer, err), there), sizes);
  }

  /* ---------- the call loop ---------- */

  /** How one IPC operation ends: done; interrupted while sending or while receiving; or failed in either phase. */
  datatype Outcome = Done | SendInterrupted | ReceiveInterrupted | SendFailed | ReceiveFailed

  datatype Result = Replied | HostDown | StillWaiting

  /** An operation with a send phase delivers the request unless it stopped in that phase. */
  predicate Delivers(sends: bool, o: Outcome) {
    sends && (o.Done? || o.ReceiveInterrupted? || o.ReceiveFailed?)
  }

  /** The loop around l4_call and l4_receive, for any pattern of outcomes: the request is delivered at most
      once, a reply is only taken after it was delivered, and it is not given up while merely interrupted. */
  method Call(outcomes: seq<Outcome>) returns (r: Result, delivered: nat, used: nat)
    ensures delivered <= 1 && used <= |outcomes|
    ensures r.Replied? ==> used > 0 && outcomes[used - 1].Done? && delivered == 1
    ensures r.HostDown? ==> used > 0 && (outcomes[used - 1].SendFailed? || outcomes[used - 1].ReceiveFailed?)
    ensures r.StillWaiting? ==> used == |outcomes|
    ensures forall k | 0 <= k < used && (r.StillWaiting? || k < used - 1) ::
              outcomes[k].SendInterrupted? || outcomes[k].ReceiveInterrupted?
  {
    var call := true;
    delivered, used := 0, 0;
    while used < |outcomes|
      invariant used <= |outcomes| && delivered == (if call then 0 else 1)
      invariant forall k | 0 <= k < used :: outcomes[k].SendInterrupted? || outcomes[k].ReceiveInterrupted?
    {
      var o := outcomes[used];
      used := used + 1;
      if Delivers(call, o) {
        delivered := delivered + 1;
      }
      match o {
        case Done => return Replied, delivered, used;
        case SendInterrupted =>
        case ReceiveInterrupted => call := false;
        case SendFailed => return HostDown, delivered, used;
        case ReceiveFailed => return HostDown, delivered, used;
      }
    }
    r := StillWaiting;
  }
}
