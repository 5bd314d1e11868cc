/** create_wallet_from_private_key.py: turn a base58 private key given on the
    command line into the byte list of a Solana keypair file, padding it with
    zeros up to 64 entries.

    The base58 decoder is a parameter (its result, or None where it raises);
    the file is not modelled beyond the list that would be dumped to it. */
module WalletImport {
  import opened Wrappers

  /** One entry of a Python `bytes` object. */
  type byte = b: int | 0 <= b < 256

  /** The length of a keypair file: 32 secret bytes and 32 public-key bytes. */
  const KeypairLength: nat := 64

  /** The list the script writes: the decoded bytes, followed by zeros up to
      KeypairLength entries when there are fewer; never cut short. */
  function PaddedKey(decoded: seq<byte>): (key: seq<int>)
    ensures |key| == if |decoded| < KeypairLength then KeypairLength else |decoded|
    ensures key[..|decoded|] == decoded
    ensures forall i :: |decoded| <= i < |key| ==> key[i] == 0
    ensures forall i :: 0 <= i < |key| ==> 0 <= key[i] < 256
    ensures |decoded| >= KeypairLength ==> key == decoded
  {
    if |decoded| < KeypairLength then decoded + seq(KeypairLength - |decoded|, _ => 0)
    else decoded
  }

  /** The contract of PaddedKey leaves no choice: any list with its length,
      its prefix and its zero tail is PaddedKey. */
  lemma PaddedKeyUnique(decoded: seq<byte>, key: seq<int>)
    requires |key| == if |decoded| < KeypairLength then KeypairLength else |decoded|
    requires key[..|decoded|] == decoded
    requires forall i :: |decoded| <= i < |key| ==> key[i] == 0
    ensures key == PaddedKey(decoded)
  {
    var padded := PaddedKey(decoded);
    forall i | 0 <= i < |key| ensures key[i] == padded[i] {
      if i < |decoded| {
        assert key[i] == key[..|decoded|][i] && padded[i] == padded[..|decoded|][i];
      }
    }
  }

  /** `private_key_list = list(private_key_bytes)` and the loop that appends
      zeros while the list is shorter than 64. */
  method PadPrivateKey(decoded: seq<byte>) returns (key: seq<int>)
    ensures key == PaddedKey(decoded)
  {
    key := decoded;
    while |key| < KeypairLength
      invariant |decoded| <= |key|
      invariant |decoded| < KeypairLength ==> |key| <= KeypairLength
      invariant |decoded| >= KeypairLength ==> key == decoded
      invariant key[..|decoded|] == decoded
      invariant forall i :: |decoded| <= i < |key| ==> key[i] == 0
      decreases KeypairLength - |key|
    {
      key := key + [0];
    }
    PaddedKeyUnique(decoded, key);
  }

  /** The process outcome: exit status and the list dumped to user-wallet.json,
      if the file was written. */
  datatype WalletRun = WalletRun(status: int, written: Option<seq<int>>)

  /** create_wallet_from_private_key: a decode failure is caught before the
      output file is opened, so it exits with 1 and writes nothing. */
  method CreateWallet(decoded: Option<seq<byte>>) returns (run: WalletRun)
    ensures decoded.None? <==> run.status == 1
    ensures decoded.None? ==> run.written.None?
    ensures decoded.Some? ==> run == WalletRun(0, Some(PaddedKey(decoded.value)))
  {
    if decoded.None? {
      return WalletRun(1, None);
    }
    var key := PadPrivateKey(decoded.value);
    run := WalletRun(0, Some(key));
  }

  /** The `__main__` block: exactly one argument after the script name, else
      exit 1 without decoding anything. */
  method ImportCommand(args: seq<string>, decode: string -> Option<seq<byte>>) returns (run: WalletRun)
    ensures |args| != 1 ==> run == WalletRun(1, None)
    ensures |args| == 1 && decode(args[0]).None? ==> run == WalletRun(1, None)
    ensures |args| == 1 && decode(args[0]).Some? ==>
      run == WalletRun(0, Some(PaddedKey(decode(args[0]).value)))
  {
    if |args| != 1 {
      return WalletRun(1, None);
    }
    run := CreateWallet(decode(args[0]));
  }
}
