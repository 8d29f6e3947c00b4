/** The four fixed rule lists of the cleanup tool, in the order the source
    declares them (emailcleanup.py lines 28-48 and 302). Every entry is a
    literal fragment: the source tests it with Python's `in`, so `.*` in an
    entry is matched as the two characters `.` and `*`, not as a regex. */
module Rules {

  const Patterns: seq<string> := [
    "noreply", "no-reply", "donotreply", "notification", "newsletter",
    "unsubscribe", "promotional", "marketing", "sale", "offer", "deal",
    "discount", "coupon", "survey", "feedback", "social.*notification",
    "linkedin.*invitation", "facebook.*notification", "twitter.*notification",
    "instagram.*notification", "spam", "advertisement", "promo",
    "alert.*account", "security.*alert", "backup.*complete",
    "system.*notification", "automated.*message", "digest",
    "weekly.*update", "monthly.*report"
  ]

  const Domains: seq<string> := [
    "newsletters.com", "marketing.com", "promo.com", "noreply.com",
    "notifications.com", "alerts.com", "survey.com", "feedback.com",
    "mailchimp.com", "constantcontact.com", "sendgrid.net", "mailgun.org"
  ]

  const SenderKeywords: seq<string> := [
    "newsletter", "marketing", "promo", "deals", "offers", "support",
    "team", "hello", "info", "updates", "notifications"
  ]

  const PromoKeywords: seq<string> := [
    "sale", "discount", "offer", "deal", "coupon", "% off", "free shipping"
  ]
}
