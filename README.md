# Arcium node operator scripts: node offset and wallet import

This project models the logic of three operator scripts for an Arcium node:

- `generate_offset.py` gives the node a random *node offset* in
  `node-config.toml`. It searches the file for the first
  `offset = <digits>`. A non-zero value there is kept and nothing is written.
  Otherwise it draws a number in [10000000, 9999999999] and rewrites every
  `offset = <digits>` in the file. Its entry point refuses to run without the
  config file, and skips generation whenever `NODE_OFFSET` is set to anything
  non-empty.
- `get_node_offset_from_env_or_config` is identical in `generate_offset.py`
  and `show_offset.py`. It resolves the offset in force: a digit-only
  `NODE_OFFSET` first, then the first match in the config file, then 0.
- `show_offset.py` prints the resolved offset with a label. The label depends
  only on whether `NODE_OFFSET` is non-empty.
- `create_wallet_from_private_key.py` decodes a base58 private key. It pads
  the byte list with zeros up to 64 entries, never truncating, and dumps the
  list to `user-wallet.json`.

The scripts' inputs become parameters, and their effects become results:

- `env` is `os.environ.get('NODE_OFFSET')`, an `Option<string>`.
- `present` says whether `node-config.toml` exists.
- `content` is the file's text as Python's text mode reads it. Newlines are
  already translated, so `\r\n` and a lone `\r` appear as `\n`.
- `draw` is the value `random.randint` returns. A `requires` keeps it in the
  range that `random.randint` promises.
- For `create_wallet_from_private_key.py`, the base58 decoder's result is an
  `Option<seq<byte>>`. `None` stands for the exception it raises.
- Results carry the exit status and the text or list that would be written,
  if anything is written.

Modules:

- `OffsetPattern` (offset_pattern.dfy) models the regular expression
  `offset = (\d+)`:
  - `Search` is `re.search`.
  - `Sub` is `re.sub`: a left-to-right rewrite that replaces a match at the
    current position whole and otherwise copies one character.
  - `Pieces` is the same scan as data, a list of literal characters and
    matches. `Render` spells pieces out as text, and `Fill` gives every match
    new digits. These are used to state what the rewrite keeps.
  - `DigitsValue` is `int` and `DecimalString` is `str`.
- `GenerateOffset` (generate_offset.dfy) holds `generate_node_offset`,
  `get_node_offset_from_env_or_config` (as `Resolve`) and the entry point.
- `ShowOffset` (show_offset.dfy) holds the entry point's choice of report.
- `WalletImport` (wallet_import.dfy) holds the padding loop, the
  decode-then-write function and the argument check.
- `OffsetExamples` (offset_examples.dfy) works two concrete config texts.

Where the scripts' own comments say less than the code does, the model
follows the code:

- generate_offset.py:46 says "Update the offset line", but line 47 rewrites
  every `offset = <digits>` in the file. That includes a longer key such as
  `node_offset = 5`.
- A config without any match is written back unchanged (lines 47-51). The
  drawn offset is still returned (line 79), and a later run draws again.
- A `NODE_OFFSET` override must pass `str.isdigit` (line 97). A leading sign
  or surrounding spaces fail it.
- create_wallet_from_private_key.py:31 says the key is padded "to 64 bytes".
  The loop at lines 32-33 only appends, so a decoded key longer than 64 bytes
  is written as it is.

## Model

| member | source | states |
|---|---|---|
| `OffsetPattern.Search` | generate_offset.py:34 | The result is the leftmost position where `offset = ` is followed by a digit. Its group is the greedy digit run there. No earlier position matches. `None` means no position matches. |
| `OffsetPattern.DigitRun` | generate_offset.py:104 | `\d+` consumes only digits and stops at the first non-digit or at the end. |
| `OffsetPattern.IsMatchDigits` | show_offset.py:34 | A match's group is always the greedy digit run after the prefix. So a position holds at most one match. |
| `OffsetPattern.DecimalString` | generate_offset.py:47 | `f'{n}'` yields a non-empty digit string that reads back as `n` (a round trip), with no leading zero. |
| `OffsetPattern.DigitsValue` | generate_offset.py:36-37 | `int()` of a digit string is 0 exactly when all its digits are '0', both directions. So `offset = 000` counts as unset. |
| `OffsetPattern.SearchOffset` | generate_offset.py:34-36 | `int(m.group(1))` has a value exactly when some position matches. The value is that of the greedy group at a match with no earlier match. |
| `OffsetPattern.SubIsFilledPieces` | generate_offset.py:47 | The rewrite equals the scanned pieces spelled out with every match's digits replaced and every literal character kept. |
| `OffsetPattern.RenderPieces` | generate_offset.py:47 | The scan `re.sub` performs loses no character: its pieces spell the original text again. |
| `OffsetPattern.Sub` | generate_offset.py:47 | `re.sub` leaves text in which no position matches unchanged. |
| `OffsetPattern.PiecesOfSub` | generate_offset.py:47 | Re-scanning the rewritten text finds the same literals and the same matches in the same order. Each match now holds the new digits, so no occurrence is missed and none is created. |
| `OffsetPattern.SearchIsFirstField` | generate_offset.py:34-47 | `re.search` finds a match exactly when the `re.sub` scan does, and its group is the scan's first match. |
| `OffsetPattern.SearchAfterSub` | generate_offset.py:44-47 | After the rewrite, the leftmost match holds the new digits. Text without a match is left as it was. |
| `GenerateOffset.GenerateNodeOffset` | generate_offset.py:23-51 | A missing file is `ConfigNotFound` (exit 1, no write), and only a missing file is. A kept offset is the non-zero leftmost value. A generated offset lies in [10000000, 9999999999]. |
| `GenerateOffset.KeepsNonZeroOffset` | generate_offset.py:34-40 | A leftmost match with a non-'0' digit is returned, and nothing is written. |
| `GenerateOffset.RegeneratesZeroOffset` | generate_offset.py:34-44 | With no match, or a leftmost match of zeros only, the drawn value is returned and the file is rewritten. |
| `GenerateOffset.RewritesEveryMatch` | generate_offset.py:47 | The written file has every match of the old file rewritten to the new offset's digits, and every other character kept. |
| `GenerateOffset.NoMatchWritesBackUnchanged` | generate_offset.py:44-51 | With no match, the content (after newline translation) is written back unchanged, yet the drawn value is returned. |
| `GenerateOffset.GenerateIdempotent` | generate_offset.py:34-47 | On a config with a match, a second call returns the first call's value and writes nothing, whatever it draws. |
| `GenerateOffset.Resolve` | generate_offset.py:85-108 | A digit-only `NODE_OFFSET` gives its own value. Otherwise an existing file with a match gives the value of the leftmost match's group. Otherwise the result is 0. |
| `GenerateOffset.ResolveOverrideIgnoresFile` | generate_offset.py:96-98 | A digit-only `NODE_OFFSET` gives its own value, whatever the file holds and whether or not it exists. |
| `GenerateOffset.ResolveLeftmost` | show_offset.py:26-36 | Without a digit-only `NODE_OFFSET`, an existing file gives the value of its leftmost match. This covers a variable that is empty or not all digits. |
| `GenerateOffset.ResolveWithoutMatchIsZero` | show_offset.py:31-38 | Without a digit-only `NODE_OFFSET`, an absent file or a file with no match gives 0. |
| `GenerateOffset.GenerateMain` | generate_offset.py:110-124 | A missing file exits 1 even when `NODE_OFFSET` is set. Any non-empty `NODE_OFFSET` exits 0 without writing. A write happens only with the variable unset or empty, and the written file never holds an offset outside the drawn range. With the file present and the variable unset or empty, it exits 0 and writes exactly what `generate_node_offset` writes, if anything. |
| `GenerateOffset.MainIdempotent` | generate_offset.py:117-124 | With `NODE_OFFSET` unset or empty and a leftmost offset of zero, the script writes a new config. Running it again on that config exits 0 and writes nothing. |
| `ShowOffset.CurrentOffsetReport` | show_offset.py:40-50 | The environment label appears exactly when `NODE_OFFSET` is non-empty. Every labelled value is the resolved offset. "Not configured" means the variable is unset or empty and the offset is 0. |
| `ShowOffset.ReportsOverride` | show_offset.py:26-28 | A digit-only `NODE_OFFSET` is reported with the environment label and its own value. |
| `ShowOffset.MislabelsConfigValue` | show_offset.py:41-44 | A non-empty `NODE_OFFSET` that is not all digits is ignored for the value, which comes from the file. The report still carries the environment label. |
| `ShowOffset.ReportsConfigValue` | show_offset.py:45-46 | With the variable unset or empty, a leftmost match with a non-'0' digit is reported with the config label. |
| `ShowOffset.ReportsNotConfigured` | show_offset.py:45-50 | With the variable unset or empty, an absent file, no match, or zeros only is reported as not configured. |
| `WalletImport.PaddedKey` | create_wallet_from_private_key.py:28-33 | The list has length max(L, 64), where L is the decoded length. It starts with the decoded bytes, and every appended entry is 0. Every entry is in 0..255. With L >= 64 it is the decoded bytes unchanged. |
| `WalletImport.PaddedKeyUnique` | create_wallet_from_private_key.py:32-33 | Length, prefix and zero tail determine the padded list completely. |
| `WalletImport.PadPrivateKey` | create_wallet_from_private_key.py:28-33 | The in-place append loop computes exactly `PaddedKey`. |
| `WalletImport.CreateWallet` | create_wallet_from_private_key.py:23-47 | A decode failure exits 1 and writes nothing, and only a decode failure exits 1. Otherwise the padded list is written and the exit status is 0. |
| `WalletImport.ImportCommand` | create_wallet_from_private_key.py:49-55 | Any argument count other than one exits 1 without writing, whatever the decoder would do. Otherwise it behaves as `CreateWallet` on the decoded argument. |
| `OffsetExamples.NeedsSpaces` | generate_offset.py:34 | `offset=5` does not match. |
| `OffsetExamples.LongerKeyMatches` | generate_offset.py:104-106 | `node_offset = 5` matches and resolves to 5. |

## Left out

- `generate_wallet.py` is not part of this model. It wraps key generation and base58 encoding from libraries whose behaviour cannot be seen here, and its overwrite prompt is interactive input.
- Base58 decoding is a library call. Its result is a parameter: the bytes, or `None` when it raises.
- JSON serialisation of the byte list is library formatting. The model stops at the list that `json.dump` receives.
- File existence, reads and writes, environment lookup and `random.randint` are parameters or results, as described above.
- Printing is not modelled, including the guidance text after a generation. `ShowOffset.Report` names which message is printed but does not hold its text.
- Read and write failures are not modelled. In `generate_node_offset` they exit with 1. In `get_node_offset_from_env_or_config` a read failure propagates. In `create_wallet_from_private_key` a failed write exits 1, possibly after a partial file.
- Python's Unicode semantics for `\d`, `str.isdigit` and `int` are not modelled. Digits are the ASCII digits '0'..'9'.
- Concurrent runs against the same config file are not modelled.
- OffsetPattern.DigitsValue reads a digit string of any length. Python 3.11, and the security releases 3.7.14, 3.8.14, 3.9.14 and 3.10.7, make `int()` raise ValueError on a string of more than 4300 digits. So `GenerateOffset.GenerateNodeOffset`, `GenerateOffset.Resolve` and `ShowOffset.CurrentOffsetReport` do not model that error. On such a config `generate_node_offset` exits 1 through its handler at generate_offset.py:81-83. `get_node_offset_from_env_or_config` does not catch it (show_offset.py:28 and :36), so show_offset.py stops with a traceback.
- GenerateOffset.NoMatchWritesBackUnchanged and GenerateOffset.RewritesEveryMatch speak of the text after newline translation. Reading in text mode turns `\r\n` and `\r` into `\n` (generate_offset.py:30). Writing turns `\n` into the platform's line separator (line 50). So on a POSIX system a config with CRLF line endings is written back with LF endings, even when nothing matched. Newline translation is not modelled.
