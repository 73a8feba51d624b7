// Token kinds (token/token.go).
module Tokens {
  datatype Kind =
    | Invalid | EOF | Unknown | Identifier
    | IntLiteral | FloatLiteral | CharLiteral | StringLiteral | PackedString | MacroParam
    | KwPublic | KwStock | KwStatic | KwNative | KwForward | KwConst | KwNew | KwDecl | KwEnum | KwSwitch
    | KwCase | KwDefault | KwIf | KwElse | KwFor | KwWhile | KwDo | KwReturn | KwBreak | KwContinue | KwGoto
    | KwSizeof | KwTagof | KwState | KwDefined | KwOperator | KwNull
    | Plus | Minus | Star | Slash | Percent
    | Assign | PlusAssign | MinusAssign | StarAssign | SlashAssign | PercentAssign
    | ShlAssign | ShrAssign | UshrAssign | AndAssign | OrAssign | XorAssign
    | Eq | NotEq | Lt | Gt | LtEq | GtEq | Shl | Shr | Ushr | AndAnd | OrOr
    | Amp | Pipe | Caret | Tilde | Bang | PlusPlus | MinusMinus
    | Question | Colon | ColonColon | Semicolon | Comma | Dot | DotDot | Ellipsis
    | LParen | RParen | LBracket | RBracket | LBrace | RBrace | Hash | AtSign
    | Comment | Whitespace | Newline | LineContinuation
  {
    predicate IsTrivia() { Comment? || Whitespace? || Newline? || LineContinuation? }

    predicate Opens() { LParen? || LBracket? || LBrace? }

    predicate Closes() { RParen? || RBracket? || RBrace? }
  }

  // A token with its spelling; `touches` says that it starts where the one before it ended.
  datatype Tok = Tok(kind: Kind, text: string, touches: bool)
}
