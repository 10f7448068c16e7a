# zvariant error taxonomy in Dafny

This project models the error type of zvariant, the D-Bus value-encoding crate of zbus
(`zvariant/src/error.rs`). It covers:

- `MaxDepthExceeded`, the tag that says which nesting limit tripped (structure, array or container), and its message.
- `Error`, the closed enum of fourteen failure kinds raised by the signature parser, the encoder and the decoder.
- The hand-written behaviour of `Error`:
  - equality, which is deliberately not reflexive on I/O errors;
  - `source()`;
  - `Display`;
  - `Clone`;
  - serde's `custom` constructors;
  - the conversion from `io::Error`.

Files:

- `error.dfy` (module `ZvariantError`): the two enums and every operation on them, with the laws they obey.
- `decimal.dfy` (module `Decimal`): the decimal text that `{}` formatting gives a `u8`. `PaddingNot0`'s message embeds the offending byte this way. The module also proves that the text reads back to the same byte.
- `wrappers.dfy` (module `Wrappers`): the `Option` that `source()` returns.

The payload types are defined outside error.rs. They are `Signature`, `serialized::Format`, `signature::Error`, `str::Utf8Error` and `io::Error`, and they appear as abstract types:

- Each has equality except `io::Error`, which has none in Rust.
- Their `Display` implementations are passed to `Display` as a `Formatters` record of functions.
- `Arc<io::Error>` is a class `Arc` with one immutable field. Its identity is the reference, so `Arc::clone` gives back the same reference and `Arc::new` allocates a fresh one.

## Model

| member | source | states |
|---|---|---|
| `ZvariantError.MaxDepthMessage` | zvariant/src/error.rs:17-33 | gives each depth limit its fixed message; its law is carried by `MaxDepthMessageInjective` (the three messages are pairwise distinct) and `DisplayMaxDepthExceeded` |
| `ZvariantError.MaxDepthMessageInjective` | zvariant/src/error.rs:17-33 | the three depth-limit messages are pairwise distinct: equal messages mean equal tags |
| `ZvariantError.Eq` | zvariant/src/error.rs:72-98 | two errors are equal exactly when neither is `InputOutput` and they are the same variant with equal payloads |
| `ZvariantError.InputOutputNeverEqual` | zvariant/src/error.rs:76 | an `InputOutput` error is unequal to every error, itself included, on either side of the comparison |
| `ZvariantError.EqReflexiveExceptInputOutput` | zvariant/src/error.rs:74-95 | every error equals itself except an `InputOutput` one |
| `ZvariantError.DifferentKindsNeverEqual` | zvariant/src/error.rs:95 | errors of different variants never compare equal |
| `ZvariantError.EqSymmetric` | zvariant/src/error.rs:73-97 | equality is symmetric for every pair of errors |
| `ZvariantError.EqTransitive` | zvariant/src/error.rs:73-97 | equality is transitive, so it is a partial equivalence |
| `ZvariantError.MaxDepthExceededEq` | zvariant/src/error.rs:81 | two depth errors are equal exactly when their limit tags are equal |
| `ZvariantError.Source` | zvariant/src/error.rs:100-108 | a cause is present exactly for `InputOutput` and `Utf8`, and it is the wrapped I/O error or UTF-8 error |
| `ZvariantError.Clone` | zvariant/src/error.rs:143-166 | a clone is the same variant with the same payload; an I/O error's clone holds the same `Arc` |
| `ZvariantError.CloneEqualsOriginal` | zvariant/src/error.rs:143-165 | a clone compares equal to its original exactly when the original is not `InputOutput` |
| `ZvariantError.CloneSharesIoError` | zvariant/src/error.rs:147 | a cloned `InputOutput` error wraps the same underlying `io::Error` and exposes the same source |
| `ZvariantError.Display` | zvariant/src/error.rs:110-141 | a `Message` displays as its text unchanged, and `InputOutput`, `Utf8` and `SignatureParse` display as their payload's own formatter gives under default formatting options; the fixed-text laws are in `DisplayOwnTextInjective` and `DisplayMaxDepthExceeded`, the round trip in `Custom` |
| `ZvariantError.DisplayMaxDepthExceeded` | zvariant/src/error.rs:135 | a depth error displays as its limit's own message |
| `ZvariantError.DisplayOwnTextIndependent` | zvariant/src/error.rs:110-141 | the variants whose text is fixed in error.rs display the same whatever the payload formatters are |
| `ZvariantError.DisplayOwnTextLength` | zvariant/src/error.rs:110-141 | the message length of each fixed-text variant; a padding error's message is 33 to 35 characters long |
| `ZvariantError.DisplayOwnTextInjective` | zvariant/src/error.rs:110-141 | among the fixed-text variants, equal messages mean equal errors, down to the depth tag and the padding byte |
| `ZvariantError.Custom` | zvariant/src/error.rs:174-192 | both serde `custom` constructors give a `Message` with no source, and displaying it gives back exactly the text of the message passed in |
| `ZvariantError.CustomEq` | zvariant/src/error.rs:177-191 | two `custom` errors are equal exactly when their texts are equal |
| `ZvariantError.FromIoError` | zvariant/src/error.rs:194-198 | converting an `io::Error` always gives `InputOutput` around a freshly allocated `Arc` holding that error, and that `Arc` is the error's source |
| `ZvariantError.Arc.constructor` | zvariant/src/error.rs:196 | `Arc::new` holds the value it is given |
| `Decimal.ToDecimal` | zvariant/src/error.rs:117 | the byte in the padding message is a non-empty digit string with no leading zero, and it reads back to the byte |
| `Decimal.ToDecimalInjective` | zvariant/src/error.rs:117 | distinct bytes print as distinct digit strings |
| `Decimal.U8DecimalLength` | zvariant/src/error.rs:117 | a `u8` prints as one to three digits |

## Left out

- `From<Infallible>` (error.rs:168-172) is not modelled. `Infallible` has no values, so the conversion can never run.
- The atomic reference counting of `Arc` is not modelled. Only the identity of the shared allocation is kept.
- The `Display` text of the foreign payloads is not modelled. These are `io::Error`, `Utf8Error`, `Signature`, `Format` and `signature::Error`, whose formatters are not part of this model. `Display` takes them as parameters, so messages built from them are stated only relative to those functions.
- Display: modelled as the text written with default formatting options to a writer that never fails. It does not capture the `fmt::Result` error path of every arm (error.rs:111-140). It also does not capture the caller's width, fill, precision and alternate options, which error.rs:114 forwards to the `io::Error` formatter, while the other arms format their payload with default options.
- Custom: `show` is total, so the model does not capture the panic of `to_string()` when the message's own `Display` fails (error.rs:181, 190).
- EqReflexiveExceptInputOutput: the payloads' own `PartialEq` is taken to be mathematical equality, which is reflexive, symmetric and transitive. The source relies on those implementations without restating them, so the model does not carry "provided the payload's equality is reflexive" as a separate hypothesis.
- The `Result<T>` alias (error.rs:200-201) and the derived `Debug` are not modelled. Neither has behaviour of its own.
- `#[non_exhaustive]` is not modelled. It has no run-time meaning.
- `zbus/src/fdo/peer.rs` is not part of this model. Its `get_machine_id` reads machine-id files or calls a Win32 helper.
- The zbus integration tests and the type declarations under `zbus/tests/` are not part of this model. They need a live bus, or their behaviour comes from derive macros whose expansion is not visible.
- The signature parser, the encoder and the decoder are not part of this model. They raise these errors, but their code is not among the modelled files.
