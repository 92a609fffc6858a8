/** The coloured score badges both the student and the admin screens show. */
module Badges {
  datatype BadgeColour = Green | Orange | Red

  /** A badge: its colour and its caption. */
  datatype Badge = Badge(colour: BadgeColour, caption: string)

  /** Red below orange below green, to compare bands. */
  function Rank(c: BadgeColour): nat {
    match c
    case Red => 0
    case Orange => 1
    case Green => 2
  }
}
